/** The owner's access editor: a set of ticked paths, reduced to its topmost
    members when saved. */
module AccessEditor {
  import opened Paths
  import opened Scope

  /** No other member contains `p`. */
  predicate IsTop(all: seq<string>, p: string) {
    !exists q :: q in all && q != p && StartsInside(p, q)
  }

  function KeepTop(paths: seq<string>, all: seq<string>): seq<string> {
    if paths == [] then []
    else (if IsTop(all, paths[0]) then [paths[0]] else []) + KeepTop(paths[1..], all)
  }

  function TopMost(paths: seq<string>): seq<string> {
    KeepTop(paths, paths)
  }

  /** No member lies inside another. */
  ghost predicate Antichain(paths: set<string>) {
    forall p, q :: p in paths && q in paths ==> !Within(p, q)
  }

  ghost predicate Ticked(checked: set<string>, file: string) {
    exists p :: p in checked && AtOrUnder(file, p)
  }

  predicate Overlap(p: string, q: string) {
    Within(p, q) || Within(q, p)
  }

  /** Nothing at or under an unticked path is ticked exactly if no tick overlaps it. */
  lemma HiddenIff(checked: set<string>, path: string)
    requires path !in checked
    ensures (forall file :: AtOrUnder(file, path) ==> !Ticked(checked, file)) <==>
            forall q :: q in checked ==> !Overlap(q, path)
  {
    if q :| q in checked && Overlap(q, path) {
      var file := if Within(q, path) then q else path;
      assert AtOrUnder(file, path) && Ticked(checked, file);
    }
    if file, q :| AtOrUnder(file, path) && q in checked && AtOrUnder(file, q) {
      AncestorsAreComparable(file, path, q);
    }
  }

  lemma {:induction false} KeepTopMembers(paths: seq<string>, all: seq<string>, x: string)
    ensures x in KeepTop(paths, all) <==> x in paths && IsTop(all, x)
  {
    if paths != [] {
      KeepTopMembers(paths[1..], all, x);
      assert forall p :: p in paths <==> p == paths[0] || p in paths[1..];
    }
  }

  /** Every member has a topmost member at or above it. */
  lemma {:induction false} TopAbove(paths: seq<string>, p: string) returns (top: string)
    requires p in paths
    ensures top in TopMost(paths) && AtOrUnder(p, top)
    decreases |p|
  {
    if IsTop(paths, p) {
      top := p;
      KeepTopMembers(paths, paths, p);
    } else {
      var q :| q in paths && q != p && StartsInside(p, q);
      BothFormsAgree(p, q);
      top := TopAbove(paths, q);
      if q != top { WithinTransitive(p, q, top); }
    }
  }

  /** Keeping only the topmost paths changes nothing anyone may read, leaves no
      path inside another, and never turns a selection into the empty list,
      which would mean full access. */
  lemma TopMostPreservesAccess(paths: seq<string>, file: string)
    ensures CanReadFile(TopMost(paths), file) <==> CanReadFile(paths, file)
    ensures TopMost(paths) == [] <==> paths == []
    ensures Antichain(set p | p in TopMost(paths))
    ensures forall p :: p in TopMost(paths) ==> p in paths
  {
    var tops := TopMost(paths);
    forall x ensures x in tops <==> x in paths && IsTop(paths, x) { KeepTopMembers(paths, paths, x); }
    forall p, q | p in tops && q in tops ensures !Within(p, q) {
      BothFormsAgree(p, q);
    }
    if paths != [] {
      var first := TopAbove(paths, paths[0]);
      if p :| p in paths && (file == p || Within(file, p)) {
        var top := TopAbove(paths, p);
        if file != p && p != top { WithinTransitive(file, p, top); }
        assert CanReadFile(tops, file);
      }
    }
  }

  class Editor {
    var checked: set<string>

    constructor (paths: seq<string>)
      ensures checked == set p | p in paths
    {
      checked := set p | p in paths;
    }

    /** Ticking a box adds exactly that subtree. */
    method Check(path: string)
      modifies this
      ensures checked == (set p | p in old(checked) && !Within(p, path)) + {path}
      ensures forall file :: Ticked(checked, file) <==> Ticked(old(checked), file) || AtOrUnder(file, path)
      ensures Antichain(old(checked)) && (forall q :: q in old(checked) ==> !Within(path, q)) ==> Antichain(checked)
    {
      var before := checked;
      var todo := checked;
      while todo != {}
        invariant todo <= before
        invariant checked == before - set p | p in before - todo && Within(p, path)
        decreases todo
      {
        var p :| p in todo;
        if Within(p, path) { checked := checked - {p}; }
        todo := todo - {p};
      }
      checked := checked + {path};
      assert checked == (set p | p in before && !Within(p, path)) + {path};
      forall file ensures Ticked(checked, file) <==> Ticked(before, file) || AtOrUnder(file, path) {
        if p :| p in before && AtOrUnder(file, p) {
          if Within(p, path) && file != p { WithinTransitive(file, p, path); }
          assert Within(p, path) || p in checked;
        }
      }
    }

    /** Clearing a box hides its item exactly if no other tick overlaps it. Among
        ticks without overlaps it removes exactly that subtree. */
    method Uncheck(path: string)
      modifies this
      ensures checked == old(checked) - {path}
      ensures (forall file :: AtOrUnder(file, path) ==> !Ticked(checked, file)) <==>
              forall q :: q in old(checked) && q != path ==> !Overlap(q, path)
      ensures Antichain(old(checked)) ==> Antichain(checked)
      ensures Antichain(old(checked)) && path in old(checked) ==>
                forall file :: Ticked(checked, file) <==> Ticked(old(checked), file) && !AtOrUnder(file, path)
    {
      checked := checked - {path};
      HiddenIff(checked, path);
      if Antichain(old(checked)) && path in old(checked) {
        forall file ensures Ticked(checked, file) <==> Ticked(old(checked), file) && !AtOrUnder(file, path) {
          if p :| p in old(checked) && AtOrUnder(file, p) && p != path {
            if AtOrUnder(file, path) { AncestorsAreComparable(file, path, p); }
            assert p in checked;
          }
        }
      }
    }

    /** What is sent to the daemon. "Only selected items" grants exactly the
        ticked subtrees if something is ticked, and everything if nothing is. */
    method Save(everything: bool) returns (paths: seq<string>)
      ensures everything ==> paths == []
      ensures forall file :: CanReadFile(paths, file) <==> everything || checked == {} || Ticked(checked, file)
      ensures !everything ==> Antichain(set p | p in paths)
    {
      if everything { return []; }
      var listed := [];
      var todo := checked;
      while todo != {}
        invariant forall p :: p in listed <==> p in checked && p !in todo
        invariant todo <= checked
        decreases todo
      {
        var p :| p in todo;
        listed := listed + [p];
        todo := todo - {p};
      }
      paths := TopMost(listed);
      TopMostPreservesAccess(listed, "");
      forall file ensures CanReadFile(paths, file) <==> checked == {} || Ticked(checked, file) {
        TopMostPreservesAccess(listed, file);
        assert listed == [] <==> checked == {} by { if listed != [] { assert listed[0] in checked; } }
      }
    }
  }
}
