/** The drop folder: uploads land in it, the owner accepts them into the share
    or discards them. Each operation is one step. */
module Inbox {
  import opened Options
  import opened Text
  import opened InboxNames
  import opened Paths
  import opened Sets

  newtype byte = x: int | 0 <= x < 256

  /** Something that is no regular file also occupies its name. */
  datatype Node = Regular(bytes: seq<byte>) | Other

  type Folder = map<string, Node>

  datatype InboxError = InvalidName | NoSuchFile | IoFailure

  datatype Stored = Ok(name: string) | Err(error: InboxError)

  // ---- Deduplication ----

  /** Every numbered name before the `n`th is taken. */
  ghost predicate TakenBefore(dir: Folder, name: string, n: nat) {
    forall m :: 1 <= m < n ==> Candidate(name, m) in dir
  }

  ghost predicate FreeAt(dir: Folder, name: string, n: nat) {
    1 <= n <= |dir| && Candidate(name, n) !in dir && TakenBefore(dir, name, n)
  }

  /** `r` is `name` if that is free, else its first free numbered candidate. */
  ghost predicate FirstFree(dir: Folder, name: string, r: string) {
    if name !in dir then r == name else exists n :: FreeAt(dir, name, n) && r == Candidate(name, n)
  }

  lemma FreeAtIsUnique(dir: Folder, name: string, m: nat, n: nat)
    requires FreeAt(dir, name, m) && FreeAt(dir, name, n)
    ensures m == n
  {
  }

  /** The numbers begin at 1: the first one is taken as soon as the name itself is. */
  lemma NumbersBeginAtOne(dir: Folder, name: string)
    requires name in dir && Candidate(name, 1) !in dir
    ensures forall r :: FirstFree(dir, name, r) <==> r == Candidate(name, 1)
  {
    assert |dir| > 0;
    assert FreeAt(dir, name, 1);
    forall r | FirstFree(dir, name, r) ensures r == Candidate(name, 1) { FirstFreeIsUnique(dir, name, r, Candidate(name, 1)); }
  }

  lemma FirstFreeIsUnique(dir: Folder, name: string, a: string, b: string)
    requires FirstFree(dir, name, a) && FirstFree(dir, name, b)
    ensures a == b
  {
    if name in dir {
      var m :| FreeAt(dir, name, m) && a == Candidate(name, m);
      var n :| FreeAt(dir, name, n) && b == Candidate(name, n);
      FreeAtIsUnique(dir, name, m, n);
    }
  }

  /** The names that were tried and found taken before number `n`. */
  ghost predicate Passed(passed: set<string>, dir: Folder, name: string, n: nat) {
    && |passed| == n && passed <= dir.Keys
    && forall x :: x in passed ==> x == name || exists m :: 1 <= m < n && x == Candidate(name, m)
  }

  lemma PassOne(passed: set<string>, dir: Folder, name: string, n: nat)
    requires n >= 1 && Passed(passed, dir, name, n) && Candidate(name, n) in dir
    ensures Passed(passed + {Candidate(name, n)}, dir, name, n + 1) && n + 1 <= |dir|
  {
    var r := Candidate(name, n);
    CandidateIsNew(name, n);
    if r in passed {
      var m :| 1 <= m < n && r == Candidate(name, m);
      CandidatesDiffer(name, m, n);
    }
    SubsetSize(passed + {r}, dir.Keys);
  }

  /** `dedupe_in_dir` stops after at most |dir| + 1 names: the numbered names it
      has passed over are distinct members of the folder. */
  method DedupeInDir(dir: Folder, name: string) returns (r: string)
    ensures FirstFree(dir, name, r) && r !in dir
    ensures ValidName(name) ==> ValidName(r)
  {
    if name !in dir { return name; }
    var n := 1;
    ghost var passed := {name};
    SubsetSize(passed, dir.Keys);
    while true
      invariant 1 <= n <= |dir| && TakenBefore(dir, name, n) && Passed(passed, dir, name, n)
      decreases |dir| - n
    {
      r := Candidate(name, n);
      if r !in dir {
        assert FreeAt(dir, name, n);
        if ValidName(name) { CandidateIsValid(name, n); }
        return;
      }
      PassOne(passed, dir, name, n);
      passed := passed + {r};
      n := n + 1;
    }
  }

  // ---- Steps ----

  /** The inbox and the top level of the share. */
  datatype World = World(inbox: Folder, share: Folder)

  /** How the file system answers when a payload is moved into the share: a rename,
      or on another volume a copy under a temporary name, a rename and a removal. */
  datatype Transfer =
    | Renamed
    | RenameFails
    | CopyFails(left: Option<seq<byte>>) // what the copy left under its temporary name
    | PlacingFails
    | SourceStays
    | CopiedOver

  /** How it answers while an upload is stored: writing the temporary file or the
      sidecar may fail and leave something there, renaming may fail. */
  datatype Storing =
    | TempFails(left: Option<seq<byte>>)
    | LandingFails
    | SidecarFails(left: Option<seq<byte>>)
    | Saved

  /** How it answers when a payload is deleted. */
  datatype Removal = RemoveFails | Removed

  /** `meta` is the serialised sender record, None if it could not be serialised;
      `cleared` says whether the sidecar of a departing payload could be deleted. */
  datatype Step =
    | Upload(name: string, bytes: seq<byte>, meta: Option<seq<byte>>, storing: Storing)
    | Accept(name: string, transfer: Transfer, cleared: bool)
    | Discard(name: string, removal: Removal, cleared: bool)

  predicate Resolves(inbox: Folder, name: string) {
    ValidName(name) && name in inbox && inbox[name].Regular?
  }

  /** Removing a file; anything else at that name stays. */
  function WithoutFile(dir: Folder, name: string): Folder {
    if name in dir && dir[name].Regular? then dir - {name} else dir
  }

  predicate Writable(dir: Folder, name: string) {
    name in dir ==> dir[name].Regular?
  }

  /** Nothing but regular files stands in the folder. */
  ghost predicate Unobstructed(dir: Folder) {
    forall x :: x in dir ==> dir[x].Regular?
  }

  /** The payload gets its final name. */
  predicate Lands(inbox: Folder, stored: string, io: Storing) {
    Writable(inbox, TempName(stored)) && !io.TempFails? && !io.LandingFails?
  }

  predicate Finishes(inbox: Folder, stored: string, meta: Option<seq<byte>>, io: Storing) {
    Lands(inbox, stored, io) && (meta.Some? ==> Writable(inbox, Sidecar(stored)) && !io.SidecarFails?)
  }

  /** What stands at `name` after writing `bytes` there, or after a write that left `left`. */
  function Written(dir: Folder, name: string, left: Option<seq<byte>>): Folder {
    if left.Some? && Writable(dir, name) then dir[name := Regular(left.value)] else dir
  }

  /** Write to the temporary name, rename over the target, then add the sidecar. */
  function AfterWrite(inbox: Folder, stored: string, bytes: seq<byte>, meta: Option<seq<byte>>, io: Storing): Folder {
    var tmp, sidecar := TempName(stored), Sidecar(stored);
    if io.TempFails? then Written(inbox, tmp, io.left)
    else if !Lands(inbox, stored, io) then Written(inbox, tmp, Some(bytes))
    else
      var landed := (inbox - {tmp})[stored := Regular(bytes)];
      if meta.None? then landed else Written(landed, sidecar, if io.SidecarFails? then io.left else meta)
  }

  ghost predicate UploadStep(w: World, name: string, bytes: seq<byte>, meta: Option<seq<byte>>, io: Storing,
                             stored: string, w': World)
  {
    if !ValidName(Trim(name)) then w' == w
    else FirstFree(w.inbox, Trim(name), stored) && w' == w.(inbox := AfterWrite(w.inbox, stored, bytes, meta, io))
  }

  /** The inbox once payload `name` is gone. */
  function Departed(inbox: Folder, name: string, cleared: bool): Folder {
    if cleared then WithoutFile(inbox - {name}, Sidecar(name)) else inbox - {name}
  }

  function ShareAfter(share: Folder, final: string, payload: Node, t: Transfer): Folder {
    var tmp := TempName(final);
    if t.Renamed? then share[final := payload]
    else if t.RenameFails? || !Writable(share, tmp) then share
    else match t
      case CopyFails(left) => if left.Some? then share[tmp := Regular(left.value)] else share
      case PlacingFails => share[tmp := payload]
      case _ => (share - {tmp})[final := payload]
  }

  predicate Completes(share: Folder, final: string, t: Transfer) {
    t.Renamed? || (t.CopiedOver? && Writable(share, TempName(final)))
  }

  /** The payload leaves the inbox only when the transfer is complete. */
  ghost predicate AcceptStep(w: World, name: string, t: Transfer, cleared: bool, final: string, w': World) {
    if !Resolves(w.inbox, name) then w' == w
    else
      && FirstFree(w.share, name, final)
      && w' == World(if Completes(w.share, final, t) then Departed(w.inbox, name, cleared) else w.inbox,
                     ShareAfter(w.share, final, w.inbox[name], t))
  }

  ghost predicate DiscardStep(w: World, name: string, removal: Removal, cleared: bool, w': World) {
    if !Resolves(w.inbox, name) || removal.RemoveFails? then w' == w
    else w' == w.(inbox := Departed(w.inbox, name, cleared))
  }

  ghost predicate Next(w: World, step: Step, w': World) {
    match step
    case Upload(name, bytes, meta, io) => exists stored :: UploadStep(w, name, bytes, meta, io, stored, w')
    case Accept(name, t, cleared) => exists final :: AcceptStep(w, name, t, cleared, final, w')
    case Discard(name, removal, cleared) => DiscardStep(w, name, removal, cleared, w')
  }

  class DropFolder {
    var inbox: Folder
    var share: Folder

    constructor (i: Folder, s: Folder)
      ensures inbox == i && share == s
    {
      inbox, share := i, s;
    }

    ghost function View(): World
      reads this
    {
      World(inbox, share)
    }

    method WriteFile(name: string, bytes: seq<byte>, meta: Option<seq<byte>>, io: Storing) returns (r: Stored)
      modifies this`inbox
      ensures Next(old(View()), Upload(name, bytes, meta, io), View())
      ensures r == Err(InvalidName) <==> !ValidName(Trim(name))
      ensures r.Ok? ==> r.name !in old(inbox) && r.name in inbox && inbox[r.name] == Regular(bytes) && ValidName(r.name)
      ensures r.Ok? ==> forall dir :: BaseName(Join(dir, r.name)) == r.name
      ensures ValidName(Trim(name)) && io == Saved && Unobstructed(old(inbox)) ==> r.Ok?
      ensures r.Ok? && meta.Some? ==> Sidecar(r.name) in inbox && inbox[Sidecar(r.name)] == Regular(meta.value)
      ensures r.Ok? <==> ValidName(Trim(name))
                         && exists stored :: FirstFree(old(inbox), Trim(name), stored) && Finishes(old(inbox), stored, meta, io)
    {
      var trimmed := Trim(name);
      if !ValidName(trimmed) {
        assert UploadStep(old(View()), name, bytes, meta, io, "", View());
        return Err(InvalidName);
      }
      var stored := DedupeInDir(inbox, trimmed);
      NamesNeverCollide(stored, stored, stored);
      var ok := StoreBytes(stored, bytes, meta, io);
      assert UploadStep(old(View()), name, bytes, meta, io, stored, View());
      forall f | FirstFree(old(inbox), trimmed, f) ensures f == stored { FirstFreeIsUnique(old(inbox), trimmed, f, stored); }
      forall dir ensures BaseName(Join(dir, stored)) == stored { ValidIsOneComponent(stored, dir); }
      return if ok then Ok(stored) else Err(IoFailure);
    }

    /** Temporary write, rename and sidecar; false if one of them fails. */
    method StoreBytes(stored: string, bytes: seq<byte>, meta: Option<seq<byte>>, io: Storing) returns (ok: bool)
      requires TempName(stored) != stored && Sidecar(stored) != stored && Sidecar(stored) != TempName(stored)
      modifies this`inbox
      ensures inbox == AfterWrite(old(inbox), stored, bytes, meta, io)
      ensures ok == Finishes(old(inbox), stored, meta, io)
      ensures ok ==> stored in inbox && inbox[stored] == Regular(bytes)
      ensures ok && meta.Some? ==> Sidecar(stored) in inbox && inbox[Sidecar(stored)] == Regular(meta.value)
    {
      var tmp, sidecar := TempName(stored), Sidecar(stored);
      if tmp in inbox && !inbox[tmp].Regular? { return false; }
      if io.TempFails? {
        if io.left.Some? { inbox := inbox[tmp := Regular(io.left.value)]; }
        return false;
      }
      inbox := inbox[tmp := Regular(bytes)];
      if io.LandingFails? { return false; }
      inbox := (inbox - {tmp})[stored := inbox[tmp]];
      assert inbox == (old(inbox) - {tmp})[stored := Regular(bytes)];
      if meta.Some? {
        if sidecar in inbox && !inbox[sidecar].Regular? { return false; }
        if io.SidecarFails? {
          if io.left.Some? { inbox := inbox[sidecar := Regular(io.left.value)]; }
          return false;
        }
        inbox := inbox[sidecar := Regular(meta.value)];
      }
      return true;
    }

    /** A failed transfer leaves the inbox as it was. */
    method AcceptFile(name: string, t: Transfer, cleared: bool) returns (r: Stored)
      modifies this
      ensures Next(old(View()), Accept(name, t, cleared), View())
      ensures r.Ok? ==> r.name !in old(share) && r.name in share && share[r.name] == old(inbox)[name]
      ensures r.Ok? ==> forall dir :: BaseName(Join(dir, r.name)) == r.name
      ensures r.Ok? ==> name !in inbox && (cleared ==> Sidecar(name) in inbox ==> !inbox[Sidecar(name)].Regular?)
      ensures Resolves(old(inbox), name) && (t == Renamed || (t == CopiedOver && Unobstructed(old(share)))) ==> r.Ok?
      ensures r.Err? ==> inbox == old(inbox)
      ensures r.Ok? <==> Resolves(old(inbox), name)
                         && exists final :: FirstFree(old(share), name, final) && Completes(old(share), final, t)
    {
      if !(ValidName(name) && name in inbox && inbox[name].Regular?) {
        assert AcceptStep(old(View()), name, t, cleared, "", View());
        return Err(if ValidName(name) then NoSuchFile else InvalidName);
      }
      var final := DedupeInDir(share, name);
      var ok := Transferred(name, final, t, cleared);
      assert AcceptStep(old(View()), name, t, cleared, final, View());
      forall f | FirstFree(old(share), name, f) ensures f == final { FirstFreeIsUnique(old(share), name, f, final); }
      forall dir ensures BaseName(Join(dir, final)) == final { ValidIsOneComponent(final, dir); }
      return if ok then Ok(final) else Err(IoFailure);
    }

    method Transferred(name: string, final: string, t: Transfer, cleared: bool) returns (ok: bool)
      requires name in inbox
      modifies this
      ensures ok == Completes(old(share), final, t)
      ensures share == ShareAfter(old(share), final, old(inbox)[name], t)
      ensures inbox == if ok then Departed(old(inbox), name, cleared) else old(inbox)
    {
      if t.RenameFails? { return false; }
      if t.Renamed? {
        share := share[final := inbox[name]];
      } else {
        var tmp := TempName(final);
        if tmp in share && !share[tmp].Regular? { return false; }
        if t.CopyFails? {
          if t.left.Some? { share := share[tmp := Regular(t.left.value)]; }
          return false;
        }
        share := share[tmp := inbox[name]];
        if t.PlacingFails? { return false; }
        share := (share - {tmp})[final := share[tmp]];
        assert share == ShareAfter(old(share), final, old(inbox)[name], t);
        if t.SourceStays? { return false; }
      }
      inbox := inbox - {name};
      if cleared { inbox := WithoutFile(inbox, Sidecar(name)); }
      return true;
    }

    method RemoveFile(name: string, removal: Removal, cleared: bool) returns (ok: bool)
      modifies this`inbox
      ensures Next(old(View()), Discard(name, removal, cleared), View())
      ensures ok <==> Resolves(old(inbox), name) && removal.Removed?
      ensures ok ==> name !in inbox && (cleared ==> Sidecar(name) in inbox ==> !inbox[Sidecar(name)].Regular?)
      ensures !ok ==> inbox == old(inbox)
    {
      if !(ValidName(name) && name in inbox && inbox[name].Regular?) { return false; }
      if removal.RemoveFails? { return false; }
      inbox := inbox - {name};
      if cleared { inbox := WithoutFile(inbox, Sidecar(name)); }
      return true;
    }
  }
}
