/** Item-centric sharing: choosing which grantees see one file or folder. */
module ShareItem {
  import opened Options
  import opened Paths
  import opened ShareTree
  import opened Scope
  import opened Unshare
  import opened UnshareLaw
  import opened Grants

  datatype Outcome = Shared | IsRoot | NotFound

  /** Listings name each entry after its directory. */
  ghost predicate BuildsPaths(list: Lister) {
    forall d, e :: list(d).Some? && e in list(d).value ==>
      RealName(e.name) && e.path == Join(d, e.name)
  }

  /** The listed paths outside the branch being removed. */
  function Outside(es: seq<Entry>, removed: string): (r: seq<string>)
    ensures forall k :: k in r <==> exists e :: e in es && e.path == k && !AtOrUnder(k, removed)
  {
    if es == [] then [] else
      assert forall e :: e in es <==> e == es[0] || e in es[1..];
      (if AtOrUnder(es[0].path, removed) then [] else [es[0].path]) + Outside(es[1..], removed)
  }

  /** A listing that fails counts as empty. */
  function KidsOutside(list: Lister, dir: string, removed: string): seq<string> {
    if list(dir).None? then [] else Outside(list(dir).value, removed)
  }

  /** The directories enumerated before any scope is rewritten. */
  function ChainDirs(path: string): set<string> {
    {""} + set i | 0 <= i < |path| && path[i] == '/' && i + 1 < |path| :: path[..i]
  }

  function Fetched(path: string, list: Lister): map<string, seq<string>> {
    map d | d in ChainDirs(path) :: KidsOutside(list, d, path)
  }

  function Lookup(fetched: map<string, seq<string>>): Children {
    d => if d in fetched then Some(fetched[d]) else None
  }

  lemma FetchedDescends(path: string, list: Lister)
    requires BuildsPaths(list)
    ensures Descends(Lookup(Fetched(path, list)))
  {
    var f := Fetched(path, list);
    forall d, k | d in f && k in f[d] ensures |k| > |d| {
      var e :| list(d).Some? && e in list(d).value && e.path == k;
      JoinInside(d, e.name);
    }
  }

  /** The scope one grant ends up with. */
  ghost function Rescoped(g: Grant, path: string, selected: seq<string>, list: Lister): seq<string>
    requires BuildsPaths(list)
  {
    if g.fingerprint in selected then
      if g.paths != [] && !Covered(g.paths, path) then g.paths + [path] else g.paths
    else
      FetchedDescends(path, list);
      After(g.paths, path, Lookup(Fetched(path, list)))
  }

  // ---- The code ----

  /** Sharing with `selected` takes the item away from this grant. */
  predicate LosesItem(g: Grant, path: string, selected: seq<string>) {
    g.fingerprint !in selected && (g.paths == [] || Covered(g.paths, path))
  }

  /** Phase 1: does some deselected grant cover the item? */
  method CoversAny(gs: seq<Grant>, path: string, selected: seq<string>) returns (covers: bool)
    ensures covers <==> exists g :: g in gs && LosesItem(g, path, selected)
  {
    covers := false;
    for i := 0 to |gs|
      invariant covers ==> exists g :: g in gs && LosesItem(g, path, selected)
      invariant !covers ==> forall j :: 0 <= j < i ==> !LosesItem(gs[j], path, selected)
    {
      if gs[i].fingerprint in selected || covers { continue; }
      assert gs[i] in gs;
      covers := gs[i].paths == [] || Covered(gs[i].paths, path);
    }
  }

  /** Phase 2: list the share root and every directory above the item. */
  method Enumerate(path: string, list: Lister) returns (fetched: map<string, seq<string>>)
    ensures fetched == Fetched(path, list)
  {
    var dirs := [""];
    for i := 0 to |path|
      invariant forall d :: d in dirs <==>
                  d == "" || exists j :: 0 <= j < i && path[j] == '/' && j + 1 < |path| && d == path[..j]
    {
      if path[i] == '/' && i + 1 < |path| { dirs := dirs + [path[..i]]; }
    }
    assert forall d :: d in dirs <==> d in ChainDirs(path);
    fetched := map[];
    for i := 0 to |dirs|
      invariant forall d :: d in fetched <==> d in dirs[..i]
      invariant forall d :: d in fetched ==> fetched[d] == KidsOutside(list, d, path)
    {
      fetched := fetched[dirs[i] := KidsOutside(list, dirs[i], path)];
    }
    assert dirs[..|dirs|] == dirs;
  }

  /** Phase 3 for one grant. Nothing was fetched when no deselected grant covers the item. */
  method RescopeOne(g: Grant, path: string, selected: seq<string>,
                    fetched: map<string, seq<string>>, list: Lister) returns (paths: seq<string>)
    requires BuildsPaths(list)
    requires fetched == Fetched(path, list) || (fetched == map[] && !LosesItem(g, path, selected))
    ensures paths == Rescoped(g, path, selected, list)
  {
    paths := g.paths;
    if g.fingerprint in selected {
      if g.paths != [] && !Covered(g.paths, path) { paths := paths + [path]; }
    } else {
      FetchedDescends(path, list);
      assert Descends(Lookup(map[]));
      var next := SubtractFromScope(g.paths, path, Lookup(fetched));
      if next.Some? { paths := next.value; }
    }
  }

  /** All three phases. Persisting the store afterwards is not modelled. */
  method Share(store: GrantStore, path: string, selected: seq<string>,
               resolves: string -> bool, list: Lister) returns (r: Outcome)
    requires BuildsPaths(list)
    modifies store
    ensures r == if path == "" then IsRoot else if !resolves(path) then NotFound else Shared
    ensures !r.Shared? ==> store.grants == old(store.grants)
    ensures r.Shared? ==>
      && |store.grants| == |old(store.grants)|
      && forall i :: 0 <= i < |store.grants| ==>
           store.grants[i] == old(store.grants)[i].(paths := Rescoped(old(store.grants)[i], path, selected, list))
  {
    if path == "" { return IsRoot; }
    if !resolves(path) { return NotFound; }
    var before := store.grants;
    var covers := CoversAny(before, path, selected);
    var fetched: map<string, seq<string>> := map[];
    if covers { fetched := Enumerate(path, list); }
    assert fetched == Fetched(path, list) || (fetched == map[] && forall g :: g in before ==> !LosesItem(g, path, selected));
    for i := 0 to |before|
      invariant |store.grants| == |before|
      invariant forall j :: 0 <= j < i ==>
                  store.grants[j] == before[j].(paths := Rescoped(before[j], path, selected, list))
      invariant forall j :: i <= j < |before| ==> store.grants[j] == before[j]
    {
      var grant := store.grants[i];
      assert grant in before;
      var paths := RescopeOne(grant, path, selected, fetched, list);
      store.grants := store.grants[i := grant.(paths := paths)];
    }
    return Shared;
  }
}
