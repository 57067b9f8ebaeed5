/** Grant scopes: the empty list is the whole share, a non-empty list is
    exactly the subtrees it names. */
module Scope {
  import opened Options
  import opened Paths
  import opened ShareTree
  import opened Walks

  predicate CanList(scope: seq<string>, dir: string) {
    || scope == []
    || dir == ""
    || exists p :: p in scope && (dir == p || Within(dir, p) || Within(p, dir))
  }

  predicate CanReadFile(scope: seq<string>, file: string) {
    scope == [] || exists p :: p in scope && (file == p || Within(file, p))
  }

  predicate EntryVisible(scope: seq<string>, path: string, kind: EntryKind) {
    exists p :: p in scope && (path == p || Within(path, p) || (kind.Dir? && Within(p, path)))
  }

  /** Some entry of `scope` covers `path`. */
  predicate Covered(scope: seq<string>, path: string) {
    exists p :: p in scope && AtOrUnder(path, p)
  }

  /** The entries a scoped grantee keeps of a listing. */
  function RetainVisible(scope: seq<string>, es: seq<Entry>): (r: seq<Entry>)
    ensures forall e :: e in r <==> e in es && EntryVisible(scope, e.path, e.kind)
  {
    if es == [] then [] else
      assert forall e :: e in es <==> e == es[0] || e in es[1..];
      (if EntryVisible(scope, es[0].path, es[0].kind) then [es[0]] else [])
      + RetainVisible(scope, es[1..])
  }

  /** What GET /v1/list answers a grantee: None for a refusal or a failure. */
  function ListFor(t: Tree, scope: seq<string>): Lister {
    d => if !CanList(scope, d) || d !in t then None
         else Some(if scope == [] then t[d] else RetainVisible(scope, t[d]))
  }

  /** The file can be reached by browsing down from the share root. */
  ghost predicate BrowsesTo(t: Tree, scope: seq<string>, file: string) {
    exists e :: Finds(ListFor(t, scope), [""], e) && e.kind.File? && e.path == file
  }

  /** On a scoped grant a directory row is shown exactly when opening it is allowed. */
  lemma ShownIffListable(scope: seq<string>, dir: string)
    requires scope != [] && dir != ""
    ensures EntryVisible(scope, dir, Dir) <==> CanList(scope, dir)
  {
    if p :| p in scope && (dir == p || Within(dir, p) || Within(p, dir)) {
      assert EntryVisible(scope, dir, Dir);
    }
  }

  /** A path below `dir` that is longer than every entry of `scope`. */
  function DeepBelow(dir: string, scope: seq<string>): (path: string)
    ensures Within(path, dir) || dir == ""
    ensures forall p :: p in scope ==> |path| > |p|
  {
    if scope == [] then dir + "/" else
      assert forall p :: p in scope <==> p == scope[0] || p in scope[1..];
      DeepBelow(dir, scope[1..]) + seq(|scope[0]| + 1, i => 'x')
  }

  /** Which folders a scoped grantee sees: those in which everything may be read, and
      those that lead to something granted. */
  lemma FolderShownIff(scope: seq<string>, dir: string)
    requires scope != [] && dir != ""
    ensures EntryVisible(scope, dir, Dir) <==>
            (forall path :: Within(path, dir) ==> CanReadFile(scope, path)) || exists p :: p in scope && Within(p, dir)
  {
    if EntryVisible(scope, dir, Dir) && !exists p :: p in scope && Within(p, dir) {
      var p :| p in scope && (dir == p || Within(dir, p));
      forall path | Within(path, dir) ensures CanReadFile(scope, path) {
        if dir != p { WithinTransitive(path, dir, p); }
      }
    }
    if forall path :: Within(path, dir) ==> CanReadFile(scope, path) {
      var deep := DeepBelow(dir, scope);
      var p :| p in scope && (deep == p || Within(deep, p));
      AncestorsAreComparable(deep, dir, p);
    }
  }

  /** A file row is shown exactly when the file may be downloaded. */
  lemma FileShownIff(scope: seq<string>, file: string)
    requires scope != []
    ensures EntryVisible(scope, file, File) <==> CanReadFile(scope, file)
  {
  }

  /** The directories above a covered path are all shown and listable. */
  lemma AncestorsAreOpen(scope: seq<string>, path: string, d: string)
    requires CanReadFile(scope, path) && Within(path, d)
    ensures CanList(scope, d) && (scope != [] ==> EntryVisible(scope, d, Dir))
  {
    if scope != [] {
      var p :| p in scope && (path == p || Within(path, p));
      AncestorsAreComparable(path, p, d);
      assert EntryVisible(scope, d, Dir);
    }
  }

  lemma {:induction false} ReachesAncestor(t: Tree, scope: seq<string>, path: string, d: string)
    requires WellFormed(t) && IsNode(t, path) && CanReadFile(scope, path)
    requires d == "" || Within(path, d)
    ensures Reaches(ListFor(t, scope), [""], d)
    decreases |d|
  {
    var ls := ListFor(t, scope);
    if d == "" {
      ReachesRoot(ls, [""], "");
    } else {
      AncestorIsDir(t, path, d);
      var up, e :| IsEntry(t, up, e) && e.path == d;
      JoinInside(up, e.name);
      if up != "" {
        WithinTransitive(path, d, up);
        AncestorsAreOpen(scope, path, up);
      }
      ReachesAncestor(t, scope, path, up);
      AncestorsAreOpen(scope, path, d);
      assert Lists(ls, up, e);
      ReachesStep(ls, [""], up, d);
    }
  }

  lemma BrowsedIsReadable(t: Tree, scope: seq<string>, file: string)
    requires WellFormed(t) && BrowsesTo(t, scope, file)
    ensures IsFile(t, file) && CanReadFile(scope, file)
  {
    var ls := ListFor(t, scope);
    var e :| Finds(ls, [""], e) && e.kind.File? && e.path == file;
    var d :| Reaches(ls, [""], d) && Lists(ls, d, e);
    assert IsEntry(t, d, e);
  }

  lemma ReadableIsBrowsed(t: Tree, scope: seq<string>, file: string)
    requires WellFormed(t) && IsFile(t, file) && CanReadFile(scope, file)
    ensures BrowsesTo(t, scope, file)
  {
    var ls := ListFor(t, scope);
    var d, e :| IsEntry(t, d, e) && e.path == file && e.kind.File?;
    JoinInside(d, e.name);
    ReachesAncestor(t, scope, file, d);
    if d != "" { AncestorsAreOpen(scope, file, d); }
    assert scope != [] ==> EntryVisible(scope, e.path, e.kind);
    assert Lists(ls, d, e);
    assert Finds(ls, [""], e);
  }

  /** Browsing shows a file of the share exactly when it may be downloaded. */
  lemma BrowsingIsExact(t: Tree, scope: seq<string>, file: string)
    requires WellFormed(t)
    ensures BrowsesTo(t, scope, file) <==> IsFile(t, file) && CanReadFile(scope, file)
  {
    if BrowsesTo(t, scope, file) { BrowsedIsReadable(t, scope, file); }
    if IsFile(t, file) && CanReadFile(scope, file) { ReadableIsBrowsed(t, scope, file); }
  }
}
