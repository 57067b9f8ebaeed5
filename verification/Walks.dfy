/** Reachability through directory listings, for any listing source at all:
    one that fails in places, or even one that loops. */
module Walks {
  import opened ShareTree

  ghost predicate Lists(ls: Lister, d: string, e: Entry) {
    ls(d).Some? && e in ls(d).value
  }

  ghost predicate StepDown(ls: Lister, d: string, k: string) {
    exists e :: Lists(ls, d, e) && e.kind.Dir? && e.path == k
  }

  /** A descent from one of `roots`, each directory listed in the one before. */
  ghost predicate Descent(ls: Lister, roots: seq<string>, chain: seq<string>) {
    && chain != []
    && chain[0] in roots
    && forall i :: 0 < i < |chain| ==> StepDown(ls, chain[i - 1], chain[i])
  }

  ghost predicate Reaches(ls: Lister, roots: seq<string>, d: string) {
    exists chain :: Descent(ls, roots, chain) && chain[|chain| - 1] == d
  }

  /** Entry `e` is listed in some directory that can be reached from `roots`. */
  ghost predicate Finds(ls: Lister, roots: seq<string>, e: Entry) {
    exists d :: Reaches(ls, roots, d) && Lists(ls, d, e)
  }

  /** `dirs` holds every root and every directory listed in a member. */
  ghost predicate Closed(ls: Lister, roots: seq<string>, dirs: set<string>) {
    && (forall r :: r in roots ==> r in dirs)
    && (forall d, k :: d in dirs && StepDown(ls, d, k) ==> k in dirs)
  }

  lemma ReachesRoot(ls: Lister, roots: seq<string>, r: string)
    requires r in roots
    ensures Reaches(ls, roots, r)
  {
    assert Descent(ls, roots, [r]);
  }

  lemma ReachesStep(ls: Lister, roots: seq<string>, d: string, k: string)
    requires Reaches(ls, roots, d) && StepDown(ls, d, k)
    ensures Reaches(ls, roots, k)
  {
    var chain :| Descent(ls, roots, chain) && chain[|chain| - 1] == d;
    var longer := chain + [k];
    forall i | 0 < i < |longer| ensures StepDown(ls, longer[i - 1], longer[i]) {
      if i < |chain| { assert StepDown(ls, chain[i - 1], chain[i]); }
    }
    assert Descent(ls, roots, longer);
  }

  lemma {:induction false} ClosedHoldsDescent(
      ls: Lister, roots: seq<string>, dirs: set<string>, chain: seq<string>, i: nat)
    requires Closed(ls, roots, dirs) && Descent(ls, roots, chain) && i < |chain|
    ensures chain[i] in dirs
  {
    if i > 0 {
      ClosedHoldsDescent(ls, roots, dirs, chain, i - 1);
      assert StepDown(ls, chain[i - 1], chain[i]);
    }
  }

  /** A closed set holds everything reachable. */
  lemma ClosedHoldsReachable(ls: Lister, roots: seq<string>, dirs: set<string>, d: string)
    requires Closed(ls, roots, dirs) && Reaches(ls, roots, d)
    ensures d in dirs
  {
    var chain :| Descent(ls, roots, chain) && chain[|chain| - 1] == d;
    ClosedHoldsDescent(ls, roots, dirs, chain, |chain| - 1);
  }
}
