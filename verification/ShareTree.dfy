/** The published folder as the daemon sees it: what each directory lists. */
module ShareTree {
  import opened Options
  import opened Paths

  datatype EntryKind = File | Dir

  /** One row of a directory listing (size and time play no part here). */
  datatype Entry = Entry(name: string, path: string, kind: EntryKind)

  /** A listing source: None when the directory cannot be listed. */
  type Lister = string -> Option<seq<Entry>>

  /** Listings keyed by directory; "" is the share root. */
  type Tree = map<string, seq<Entry>>

  /** Names an operating system can put in a listing. */
  predicate RealName(name: string) {
    name != "" && '/' !in name && '\0' !in name
  }

  ghost predicate IsEntry(t: Tree, d: string, e: Entry) {
    d in t && e in t[d]
  }

  /** A finite tree: entries are named after their directory, directories are
      exactly what can be listed, and everything hangs off the root. */
  ghost predicate WellFormed(t: Tree) {
    && "" in t
    && (forall d, e :: IsEntry(t, d, e) ==>
          RealName(e.name) && e.path == Join(d, e.name) && (e.kind.Dir? <==> e.path in t))
    && (forall d {:trigger IsNode(t, d)} :: d in t && d != "" ==> IsNode(t, d))
  }

  ghost predicate IsNode(t: Tree, path: string) {
    exists d, e :: IsEntry(t, d, e) && e.path == path
  }

  ghost predicate IsFile(t: Tree, path: string) {
    exists d, e :: IsEntry(t, d, e) && e.path == path && e.kind.File?
  }

  /** Listing straight from the tree. */
  function ListTree(t: Tree): Lister {
    d => if d in t then Some(t[d]) else None
  }

  lemma NodeNotRoot(t: Tree, path: string)
    requires WellFormed(t) && IsNode(t, path)
    ensures path != ""
  {
    var d, e :| IsEntry(t, d, e) && e.path == path;
    JoinInside(d, e.name);
  }

  /** Every proper ancestor of a node is a directory that can be listed. */
  lemma {:induction false} AncestorIsDir(t: Tree, path: string, a: string)
    requires WellFormed(t) && IsNode(t, path) && Within(path, a)
    ensures a in t && IsNode(t, a)
    decreases |path|
  {
    var d, e :| IsEntry(t, d, e) && e.path == path;
    InsideJoin(d, e.name, a);
    JoinInside(d, e.name);
    assert d != "";
    if d != a { AncestorIsDir(t, d, a); }
  }

  /** The one step down from `a` towards a node below it. */
  lemma {:induction false} StepTowards(t: Tree, path: string, a: string) returns (k: Entry)
    requires WellFormed(t) && IsNode(t, path)
    requires a == "" || Within(path, a)
    ensures IsEntry(t, a, k) && AtOrUnder(path, k.path)
    decreases |path|
  {
    var d, e :| IsEntry(t, d, e) && e.path == path;
    JoinInside(d, e.name);
    if d == a {
      k := e;
    } else {
      if a != "" { InsideJoin(d, e.name, a); }
      k := StepTowards(t, d, a);
      if d != k.path { WithinTransitive(path, d, k.path); }
    }
  }

  /** A node's path never contains NUL nor ends in a slash. */
  lemma {:induction false} NodeIsClean(t: Tree, path: string)
    requires WellFormed(t) && IsNode(t, path)
    ensures '\0' !in path && path != "" && path[|path| - 1] != '/'
    decreases |path|
  {
    var d, e :| IsEntry(t, d, e) && e.path == path;
    JoinInside(d, e.name);
    if d != "" { NodeIsClean(t, d); }
    assert path[|path| - 1] == e.name[|e.name| - 1];
    assert e.name[|e.name| - 1] in e.name;
  }

  /** A file has nothing below it. */
  lemma NothingUnderFile(t: Tree, file: string, path: string)
    requires WellFormed(t) && IsFile(t, file) && IsNode(t, path) && AtOrUnder(path, file)
    ensures path == file
  {
    var d, e :| IsEntry(t, d, e) && e.path == file && e.kind.File?;
    if path != file {
      AncestorIsDir(t, path, file);
      assert false;
    }
  }
}
