/** Forward-slash relative paths and the strict-containment test that every
    access decision is built on. */
module Paths {

  /** `path` lies strictly inside `ancestor`. Nothing lies inside "". */
  predicate Within(path: string, ancestor: string) {
    && ancestor != ""
    && |path| > |ancestor|
    && ancestor <= path
    && path[|ancestor|] == '/'
  }

  /** The same test as the web UI writes it. */
  predicate StartsInside(path: string, ancestor: string) {
    ancestor != "" && |path| > |ancestor| && ancestor + "/" <= path
  }

  /** `path` is `item` or lies inside it: the subtree rooted at `item`. */
  predicate AtOrUnder(path: string, item: string) {
    path == item || Within(path, item)
  }

  /** The path of an entry called `name` in directory `dir` ("" is the root). */
  function Join(dir: string, name: string): string {
    if dir == "" then name else dir + "/" + name
  }

  /** The last component. */
  function BaseName(path: string): string {
    if |path| == 0 then ""
    else if path[|path| - 1] == '/' then ""
    else BaseName(path[..|path| - 1]) + [path[|path| - 1]]
  }

  lemma WithinTransitive(a: string, b: string, c: string)
    requires Within(a, b) && Within(b, c)
    ensures Within(a, c)
  {
    assert a[|c|] == b[|c|];
  }

  /** The ancestors of one path form a chain. */
  lemma AncestorsAreComparable(path: string, a: string, b: string)
    requires AtOrUnder(path, a) && AtOrUnder(path, b)
    ensures AtOrUnder(a, b) || Within(b, a)
  {
    assert a <= path && b <= path;
    if |a| < |b| {
      assert a == b[..|a|];
      assert b[|a|] == path[|a|];
    } else if |b| < |a| {
      assert b == a[..|b|];
      assert a[|b|] == path[|b|];
    }
  }

  lemma BothFormsAgree(path: string, ancestor: string)
    ensures Within(path, ancestor) == StartsInside(path, ancestor)
  {
    if ancestor != "" && |path| > |ancestor| {
      assert (ancestor + "/")[|ancestor|] == '/';
      if Within(path, ancestor) {
        assert path[..|ancestor| + 1] == ancestor + "/";
      }
      if StartsInside(path, ancestor) {
        assert path[..|ancestor|] == (ancestor + "/")[..|ancestor|] == ancestor;
      }
    }
  }

  /** What lies strictly inside an ancestor of an entry is, or contains, its directory. */
  lemma InsideJoin(dir: string, name: string, a: string)
    requires name != "" && '/' !in name && Within(Join(dir, name), a)
    ensures AtOrUnder(dir, a)
  {
    var path := Join(dir, name);
    var start := |path| - |name|;
    assert forall i :: start <= i < |path| ==> path[i] == name[i - start] && path[i] in name;
    assert |a| < start;
    assert dir == path[..|dir|];
    assert a == path[..|a|] == dir[..|a|];
  }

  lemma JoinInside(dir: string, name: string)
    requires name != ""
    ensures dir != "" ==> Within(Join(dir, name), dir)
    ensures |Join(dir, name)| > |dir|
  {
    if dir != "" { assert Join(dir, name)[..|dir|] == dir; }
  }

  lemma {:induction false} BaseNameOfJoin(dir: string, name: string)
    requires '/' !in name
    ensures BaseName(Join(dir, name)) == name
  {
    var path := Join(dir, name);
    if name == "" {
    } else {
      var last := |name| - 1;
      var front := name[..last];
      assert path[..|path| - 1] == Join(dir, front) by {
        if dir != "" { assert path == dir + "/" + front + [name[last]]; }
      }
      assert path[|path| - 1] == name[last];
      assert name[last] in name;
      BaseNameOfJoin(dir, front);
      assert name == front + [name[last]];
    }
  }
}
