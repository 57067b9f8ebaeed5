/** Nothing dropped into the inbox is lost, overwritten or altered. */
module InboxLaw {
  import opened Options
  import opened Text
  import opened InboxNames
  import opened Inbox

  /** `name` is an uploaded (or dropped-in) file holding `bytes`. */
  predicate Payload(w: World, name: string, bytes: seq<byte>) {
    ValidName(name) && name in w.inbox && w.inbox[name] == Regular(bytes)
  }

  lemma FirstFreeIsFree(dir: Folder, name: string, r: string)
    requires FirstFree(dir, name, r)
    ensures r !in dir && (ValidName(name) ==> ValidName(r))
  {
    if name in dir {
      var n :| FreeAt(dir, name, n) && r == Candidate(name, n);
      if ValidName(name) { CandidateIsValid(name, n); }
    }
  }

  /** Storing an upload touches its three names only. */
  lemma StoringTouches(inbox: Folder, stored: string, bytes: seq<byte>, meta: Option<seq<byte>>, io: Storing, x: string)
    requires x != stored && x != TempName(stored) && x != Sidecar(stored)
    ensures var after := AfterWrite(inbox, stored, bytes, meta, io);
            (x in after <==> x in inbox) && (x in inbox ==> after[x] == inbox[x])
  {
  }

  lemma StoringLeavesTemp(inbox: Folder, stored: string, bytes: seq<byte>, meta: Option<seq<byte>>, io: Storing)
    requires TempName(stored) != stored && TempName(stored) != Sidecar(stored) && TempName(stored) in inbox
    ensures TempName(stored) in AfterWrite(inbox, stored, bytes, meta, io) <==> !Lands(inbox, stored, io)
  {
  }

  lemma UploadKeeps(w: World, step: Step, stored: string, w': World, n: string, b: seq<byte>)
    requires step.Upload? && UploadStep(w, step.name, step.bytes, step.meta, step.storing, stored, w') && Payload(w, n, b)
    ensures Payload(w', n, b)
  {
    if ValidName(Trim(step.name)) {
      FirstFreeIsFree(w.inbox, Trim(step.name), stored);
      NamesNeverCollide(stored, stored, n);
      StoringTouches(w.inbox, stored, step.bytes, step.meta, step.storing, n);
    }
  }

  predicate InShare(w: World, name: string, b: seq<byte>) {
    name in w.share && w.share[name] == Regular(b)
  }

  /** The step put `b` into the share under the name `final`, which was free there. */
  predicate Landed(w: World, w': World, final: string, b: seq<byte>) {
    ValidName(final) && final !in w.share && InShare(w', final, b)
  }

  ghost predicate Moved(w: World, w': World, b: seq<byte>) {
    exists final :: Landed(w, w', final, b)
  }

  lemma AcceptKeeps(w: World, name: string, t: Transfer, cleared: bool, final: string, w': World, n: string, b: seq<byte>)
    requires AcceptStep(w, name, t, cleared, final, w') && Payload(w, n, b)
    ensures Payload(w', n, b) || (name == n && Moved(w, w', b))
  {
    if Resolves(w.inbox, name) && Completes(w.share, final, t) {
      FirstFreeIsFree(w.share, name, final);
      NamesNeverCollide(name, name, n);
      if name == n { assert Landed(w, w', final, b); }
    }
  }

  /** The step deletes payload `n` at the owner's word. */
  predicate Discards(step: Step, n: string) {
    step.Discard? && step.name == n && step.removal.Removed?
  }

  lemma DiscardKeeps(w: World, step: Step, w': World, n: string, b: seq<byte>)
    requires step.Discard? && Next(w, step, w') && Payload(w, n, b) && !Discards(step, n)
    ensures Payload(w', n, b)
  {
    if Resolves(w.inbox, step.name) { NamesNeverCollide(step.name, step.name, n); }
  }

  /** One step leaves a payload alone, moves it into the share, or discards it
      because the owner said so. */
  lemma StepConserves(w: World, step: Step, w': World, n: string, b: seq<byte>)
    requires Next(w, step, w') && Payload(w, n, b) && !Discards(step, n)
    ensures Payload(w', n, b) || (step.Accept? && step.name == n && Moved(w, w', b))
  {
    match step
    case Upload(name, bytes, meta, io) =>
      var stored :| UploadStep(w, name, bytes, meta, io, stored, w');
      UploadKeeps(w, step, stored, w', n, b);
    case Accept(name, t, cleared) =>
      var final :| AcceptStep(w, name, t, cleared, final, w');
      AcceptKeeps(w, name, t, cleared, final, w', n, b);
    case Discard(_, _, _) =>
      DiscardKeeps(w, step, w', n, b);
  }

  // ---- Files of the share ----

  predicate Unchanged(w: World, w': World, f: string)
    requires f in w.share
  {
    f in w'.share && w'.share[f] == w.share[f]
  }

  /** `f` is the copy's temporary name, and what stands there afterwards differs
      from what stood there before. */
  predicate Overwrites(share: Folder, final: string, payload: Node, t: Transfer, f: string)
    requires f in share
  {
    && f == TempName(final) && share[f].Regular?
    && match t
       case CopyFails(left) => left.Some? && share[f] != Regular(left.value)
       case PlacingFails => share[f] != payload
       case SourceStays => true
       case CopiedOver => true
       case _ => false
  }

  lemma TransferKeepsIff(share: Folder, final: string, payload: Node, t: Transfer, f: string)
    requires f in share && final !in share
    ensures var after := ShareAfter(share, final, payload, t);
            f in after && after[f] == share[f] <==> !Overwrites(share, final, payload, t, f)
  {
  }

  ghost predicate Clobbers(w: World, step: Step, f: string)
    requires f in w.share
  {
    && step.Accept? && Resolves(w.inbox, step.name)
    && exists final :: FirstFree(w.share, step.name, final) && Overwrites(w.share, final, w.inbox[step.name], step.transfer, f)
  }

  /** A step changes a file of the share exactly if it copies a payload over it. */
  lemma ShareFileKeptIff(w: World, step: Step, w': World, f: string)
    requires Next(w, step, w') && f in w.share
    ensures Unchanged(w, w', f) <==> !Clobbers(w, step, f)
  {
    if step.Accept? && Resolves(w.inbox, step.name) {
      var final :| AcceptStep(w, step.name, step.transfer, step.cleared, final, w');
      FirstFreeIsFree(w.share, step.name, final);
      TransferKeepsIff(w.share, final, w.inbox[step.name], step.transfer, f);
      forall x | FirstFree(w.share, step.name, x) ensures x == final { FirstFreeIsUnique(w.share, step.name, x, final); }
    }
  }

  /** A hidden name of the form `.name.part` for an acceptable name. */
  ghost predicate IsTemp(f: string) {
    exists v :: ValidName(v) && f == TempName(v)
  }

  lemma StepKeepsShare(w: World, step: Step, w': World, f: string)
    requires Next(w, step, w') && f in w.share && !IsTemp(f)
    ensures Unchanged(w, w', f)
  {
    ShareFileKeptIff(w, step, w', f);
    if Clobbers(w, step, f) {
      var final :| FirstFree(w.share, step.name, final)
                   && Overwrites(w.share, final, w.inbox[step.name], step.transfer, f);
      FirstFreeIsFree(w.share, step.name, final);
      assert false;
    }
  }

  lemma ValidIsNoTemp(f: string)
    requires ValidName(f)
    ensures !IsTemp(f)
  {
    forall v | ValidName(v) ensures f != TempName(v) { NamesNeverCollide(v, v, f); }
  }

  // ---- Whole runs ----

  ghost predicate StepAt(ws: seq<World>, steps: seq<Step>, i: nat)
    requires i < |steps| < |ws|
  {
    Next(ws[i], steps[i], ws[i + 1])
  }

  ghost predicate Follows(ws: seq<World>, steps: seq<Step>) {
    && |ws| == |steps| + 1
    && forall i {:trigger StepAt(ws, steps, i)} :: 0 <= i < |steps| ==> StepAt(ws, steps, i)
  }

  ghost predicate KeptThroughout(ws: seq<World>, i: nat, j: nat, f: string)
    requires i <= j < |ws| && f in ws[i].share
  {
    forall m :: i <= m <= j ==> Unchanged(ws[i], ws[m], f)
  }

  ghost predicate ClobberedAt(ws: seq<World>, steps: seq<Step>, m: nat, f: string)
    requires m < |steps| < |ws|
  {
    f in ws[m].share && Clobbers(ws[m], steps[m], f)
  }

  lemma KeptOneMore(ws: seq<World>, steps: seq<Step>, i: nat, j: nat, f: string)
    requires Follows(ws, steps) && i <= j < |steps| && f in ws[i].share && KeptThroughout(ws, i, j, f)
    ensures KeptThroughout(ws, i, j + 1, f) <==> !ClobberedAt(ws, steps, j, f)
  {
    assert Unchanged(ws[i], ws[j], f) && StepAt(ws, steps, j);
    ShareFileKeptIff(ws[j], steps[j], ws[j + 1], f);
    assert KeptThroughout(ws, i, j + 1, f) <==> Unchanged(ws[i], ws[j + 1], f);
  }

  /** Over every run a file of the share is never touched iff no step copies over it. */
  lemma {:induction false} ShareFileSurvivesIff(ws: seq<World>, steps: seq<Step>, i: nat, j: nat, f: string)
    requires Follows(ws, steps) && i <= j < |ws| && f in ws[i].share
    ensures KeptThroughout(ws, i, j, f) <==> forall m :: i <= m < j ==> !ClobberedAt(ws, steps, m, f)
  {
    if i < j {
      ShareFileSurvivesIff(ws, steps, i, j - 1, f);
      if KeptThroughout(ws, i, j - 1, f) { KeptOneMore(ws, steps, i, j - 1, f); }
    }
  }

  /** So only a file whose name is some copy's temporary name can ever change. */
  lemma {:induction false} ShareOnlyGrows(ws: seq<World>, steps: seq<Step>, i: nat, j: nat, f: string)
    requires Follows(ws, steps) && i <= j < |ws| && f in ws[i].share && !IsTemp(f)
    ensures Unchanged(ws[i], ws[j], f)
  {
    if i < j {
      ShareOnlyGrows(ws, steps, i, j - 1, f);
      assert StepAt(ws, steps, j - 1);
      StepKeepsShare(ws[j - 1], steps[j - 1], ws[j], f);
    }
  }

  /** Such a file can be lost: accepting across volumes overwrites and then moves
      away whatever stands at the temporary name. */
  lemma CopyOverwritesTemp(w: World, name: string, w': World)
    requires Resolves(w.inbox, name) && name !in w.share
    requires TempName(name) in w.share && w.share[TempName(name)].Regular?
    requires Next(w, Accept(name, CopiedOver, true), w')
    ensures TempName(name) !in w'.share
  {
    NamesNeverCollide(name, name, name);
  }

  /** Step `k` took the payload out of the inbox at the owner's word: discarded
      it, or moved it to a free name in the share where it still is at `j`. */
  ghost predicate Settled(ws: seq<World>, steps: seq<Step>, k: nat, j: nat, n: string, b: seq<byte>)
    requires |ws| == |steps| + 1
  {
    && k < j < |ws|
    && Payload(ws[k], n, b)
    && (Discards(steps[k], n)
        || (steps[k].Accept? && steps[k].name == n
            && exists final :: Landed(ws[k], ws[k + 1], final, b) && InShare(ws[j], final, b)))
  }

  lemma StaysOrSettles(ws: seq<World>, steps: seq<Step>, k: nat, n: string, b: seq<byte>)
    requires Follows(ws, steps) && k + 1 < |ws| && Payload(ws[k], n, b)
    ensures Payload(ws[k + 1], n, b) || Settled(ws, steps, k, k + 1, n, b)
  {
    if !Discards(steps[k], n) {
      assert StepAt(ws, steps, k);
      StepConserves(ws[k], steps[k], ws[k + 1], n, b);
    }
  }

  lemma SettledStaysSettled(ws: seq<World>, steps: seq<Step>, k: nat, j: nat, n: string, b: seq<byte>)
    requires Follows(ws, steps) && j + 1 < |ws| && Settled(ws, steps, k, j, n, b)
    ensures Settled(ws, steps, k, j + 1, n, b)
  {
    if !Discards(steps[k], n) {
      var final :| Landed(ws[k], ws[k + 1], final, b) && InShare(ws[j], final, b);
      ValidIsNoTemp(final);
      assert StepAt(ws, steps, j);
      StepKeepsShare(ws[j], steps[j], ws[j + 1], final);
      assert InShare(ws[j + 1], final, b);
    }
  }

  /** The payload that was there at `i` is still there at `j`, or was settled in between. */
  ghost predicate Accounted(ws: seq<World>, steps: seq<Step>, i: nat, j: nat, n: string, b: seq<byte>)
    requires |ws| == |steps| + 1 && j < |ws|
  {
    Payload(ws[j], n, b) || exists k :: i <= k && Settled(ws, steps, k, j, n, b)
  }

  lemma StaysAccounted(ws: seq<World>, steps: seq<Step>, i: nat, j: nat, n: string, b: seq<byte>)
    requires Follows(ws, steps) && i <= j && j + 1 < |ws| && Accounted(ws, steps, i, j, n, b)
    ensures Accounted(ws, steps, i, j + 1, n, b)
  {
    if Payload(ws[j], n, b) {
      StaysOrSettles(ws, steps, j, n, b);
    } else {
      var k :| i <= k && Settled(ws, steps, k, j, n, b);
      SettledStaysSettled(ws, steps, k, j, n, b);
    }
  }

  /** Inbox conservation over every run: a payload present at `i` is still there
      with the same bytes at `j`, unless in between the owner accepted it, and
      its bytes are where they landed in the share from then on, or discarded it. */
  lemma {:induction false} PayloadIsConserved(
      ws: seq<World>, steps: seq<Step>, i: nat, j: nat, n: string, b: seq<byte>)
    requires Follows(ws, steps) && i <= j < |ws| && Payload(ws[i], n, b)
    ensures Accounted(ws, steps, i, j, n, b)
    decreases j - i
  {
    if i < j {
      PayloadIsConserved(ws, steps, i, j - 1, n, b);
      StaysAccounted(ws, steps, i, j - 1, n, b);
    }
  }

  // ---- Who sent what ----

  /** Payload `n` is there with its sidecar, which says `m`. */
  predicate Labelled(w: World, n: string, m: seq<byte>) {
    ValidName(n) && n in w.inbox && w.inbox[n].Regular? && Sidecar(n) in w.inbox && w.inbox[Sidecar(n)] == Regular(m)
  }

  /** The step is about payload `n` itself. */
  predicate Concerns(step: Step, n: string) {
    (step.Accept? || step.Discard?) && step.name == n
  }

  lemma UploadKeepsLabel(w: World, step: Step, stored: string, w': World, n: string, m: seq<byte>)
    requires step.Upload? && UploadStep(w, step.name, step.bytes, step.meta, step.storing, stored, w') && Labelled(w, n, m)
    ensures Labelled(w', n, m)
  {
    if ValidName(Trim(step.name)) {
      FirstFreeIsFree(w.inbox, Trim(step.name), stored);
      NamesNeverCollide(stored, stored, n);
      NamesNeverCollide(n, stored, stored);
      StoringTouches(w.inbox, stored, step.bytes, step.meta, step.storing, n);
      StoringTouches(w.inbox, stored, step.bytes, step.meta, step.storing, Sidecar(n));
    }
  }

  lemma DepartureKeepsLabel(inbox: Folder, name: string, cleared: bool, n: string)
    requires ValidName(name) && ValidName(n) && name != n && n in inbox && Sidecar(n) in inbox
    ensures var after := Departed(inbox, name, cleared);
            n in after && Sidecar(n) in after && after[n] == inbox[n] && after[Sidecar(n)] == inbox[Sidecar(n)]
  {
    NamesNeverCollide(n, name, name);
    NamesNeverCollide(name, name, n);
  }

  lemma StepKeepsLabel(w: World, step: Step, w': World, n: string, m: seq<byte>)
    requires Next(w, step, w') && Labelled(w, n, m) && !Concerns(step, n)
    ensures Labelled(w', n, m)
  {
    match step
    case Upload(name, bytes, meta, io) =>
      var stored :| UploadStep(w, name, bytes, meta, io, stored, w');
      UploadKeepsLabel(w, step, stored, w', n, m);
    case Accept(name, t, cleared) =>
      if Resolves(w.inbox, name) { DepartureKeepsLabel(w.inbox, name, cleared, n); }
    case Discard(name, _, cleared) =>
      if Resolves(w.inbox, name) { DepartureKeepsLabel(w.inbox, name, cleared, n); }
  }

  /** Over every run a payload keeps the record of its sender until the owner
      accepts or discards it. */
  lemma {:induction false} SenderIsConserved(ws: seq<World>, steps: seq<Step>, i: nat, j: nat, n: string, m: seq<byte>)
    requires Follows(ws, steps) && i <= j < |ws| && Labelled(ws[i], n, m)
    requires forall k :: i <= k < j ==> !Concerns(steps[k], n)
    ensures Labelled(ws[j], n, m)
    decreases j - i
  {
    if i < j {
      SenderIsConserved(ws, steps, i, j - 1, n, m);
      assert StepAt(ws, steps, j - 1);
      StepKeepsLabel(ws[j - 1], steps[j - 1], ws[j], n, m);
    }
  }

  // ---- The folder stays tidy ----

  /** `x` is a payload, or the sidecar of one that is there. */
  ghost predicate Belongs(inbox: Folder, x: string) {
    ValidName(x) || exists n :: ValidName(n) && n in inbox && x == Sidecar(n)
  }

  /** Payloads and their sidecars, and nothing else: no temporary file is left behind. */
  ghost predicate Tidy(w: World) {
    forall x :: x in w.inbox ==> w.inbox[x].Regular? && Belongs(w.inbox, x)
  }

  /** In a tidy folder an upload's temporary and sidecar names are unused. */
  lemma TidyHasRoom(w: World, stored: string)
    requires Tidy(w) && ValidName(stored) && stored !in w.inbox
    ensures TempName(stored) !in w.inbox && Sidecar(stored) !in w.inbox
  {
    NamesNeverCollide(stored, stored, stored);
    if TempName(stored) in w.inbox {
      if n :| ValidName(n) && n in w.inbox && TempName(stored) == Sidecar(n) { NamesNeverCollide(n, stored, n); }
    }
    if Sidecar(stored) in w.inbox {
      if n :| ValidName(n) && n in w.inbox && Sidecar(stored) == Sidecar(n) { NamesNeverCollide(n, stored, n); }
    }
  }

  /** The step leaves something behind: the temporary file of an upload that
      failed, or the sidecar of a payload that is gone. */
  ghost predicate Litters(w: World, step: Step) {
    match step
    case Upload(name, _, _, io) =>
      ValidName(Trim(name)) && ((io.TempFails? && io.left.Some?) || io.LandingFails?)
    case Accept(name, t, cleared) =>
      && Resolves(w.inbox, name) && !cleared && Sidecar(name) in w.inbox
      && exists final :: FirstFree(w.share, name, final) && Completes(w.share, final, t)
    case Discard(name, removal, cleared) =>
      Resolves(w.inbox, name) && !cleared && Sidecar(name) in w.inbox && removal.Removed?
  }

  lemma StillBelongs(inbox: Folder, name: string, cleared: bool, x: string)
    requires ValidName(name) && (Sidecar(name) in inbox ==> cleared && inbox[Sidecar(name)].Regular?)
    requires x in Departed(inbox, name, cleared) && Belongs(inbox, x)
    ensures Belongs(Departed(inbox, name, cleared), x)
  {
    if !ValidName(x) {
      var n :| ValidName(n) && n in inbox && x == Sidecar(n);
      NamesNeverCollide(name, name, n);
      assert n in Departed(inbox, name, cleared);
    }
  }

  lemma SidecarAlone(inbox: Folder, name: string)
    requires ValidName(name) && name !in inbox && Sidecar(name) in inbox
    ensures !Belongs(inbox, Sidecar(name))
  {
    NamesNeverCollide(name, name, name);
    if ValidName(Sidecar(name)) {
      NamesNeverCollide(name, name, Sidecar(name));
      assert false;
    }
    forall n | ValidName(n) && n in inbox ensures Sidecar(name) != Sidecar(n) { NamesNeverCollide(name, n, n); }
  }

  lemma DepartureIsTidyIff(w: World, name: string, cleared: bool, w': World)
    requires Tidy(w) && ValidName(name) && name in w.inbox && w'.inbox == Departed(w.inbox, name, cleared)
    ensures Tidy(w') <==> cleared || Sidecar(name) !in w.inbox
  {
    NamesNeverCollide(name, name, name);
    if cleared || Sidecar(name) !in w.inbox {
      forall x | x in w'.inbox ensures w'.inbox[x].Regular? && Belongs(w'.inbox, x) {
        assert x in w.inbox;
        StillBelongs(w.inbox, name, cleared, x);
      }
    } else {
      SidecarAlone(w'.inbox, name);
      assert Sidecar(name) in w'.inbox;
    }
  }

  lemma UploadIsTidy(w: World, stored: string, bytes: seq<byte>, meta: Option<seq<byte>>, io: Storing, w': World)
    requires Tidy(w) && ValidName(stored) && stored !in w.inbox && Lands(w.inbox, stored, io)
    requires w'.inbox == AfterWrite(w.inbox, stored, bytes, meta, io)
    ensures Tidy(w') && Payload(w', stored, bytes)
  {
    TidyHasRoom(w, stored);
    NamesNeverCollide(stored, stored, stored);
    forall x | x in w'.inbox ensures w'.inbox[x].Regular? && Belongs(w'.inbox, x) {
      if x != stored && x != Sidecar(stored) && x != TempName(stored) {
        StoringTouches(w.inbox, stored, bytes, meta, io, x);
        if !ValidName(x) {
          var n :| ValidName(n) && n in w.inbox && x == Sidecar(n);
          NamesNeverCollide(stored, stored, n);
          StoringTouches(w.inbox, stored, bytes, meta, io, n);
        }
      }
    }
  }

  lemma TempIsUntidy(w: World, v: string)
    requires ValidName(v) && TempName(v) in w.inbox
    ensures !Tidy(w)
  {
    NamesNeverCollide(v, v, v);
    assert TempName(v)[0] == '.';
    forall n | ValidName(n) && n in w.inbox ensures TempName(v) != Sidecar(n) { NamesNeverCollide(n, v, n); }
  }

  lemma StoringIsTidyIff(w: World, stored: string, bytes: seq<byte>, meta: Option<seq<byte>>, io: Storing, w': World)
    requires Tidy(w) && ValidName(stored) && stored !in w.inbox
    requires w' == w.(inbox := AfterWrite(w.inbox, stored, bytes, meta, io))
    ensures Tidy(w') <==> !((io.TempFails? && io.left.Some?) || io.LandingFails?)
  {
    TidyHasRoom(w, stored);
    if (io.TempFails? && io.left.Some?) || io.LandingFails? {
      TempIsUntidy(w', stored);
    } else if Lands(w.inbox, stored, io) {
      UploadIsTidy(w, stored, bytes, meta, io, w');
    }
  }

  lemma AcceptIsTidyIff(w: World, step: Step, final: string, w': World)
    requires step.Accept? && Tidy(w) && AcceptStep(w, step.name, step.transfer, step.cleared, final, w')
    ensures Tidy(w') <==> !Litters(w, step)
  {
    if Resolves(w.inbox, step.name) {
      forall f | FirstFree(w.share, step.name, f) ensures f == final { FirstFreeIsUnique(w.share, step.name, f, final); }
      if Completes(w.share, final, step.transfer) {
        DepartureIsTidyIff(w, step.name, step.cleared, w');
      }
    }
  }

  /** A tidy folder stays tidy through a step exactly if the step leaves nothing behind. */
  lemma StepIsTidyIff(w: World, step: Step, w': World)
    requires Tidy(w) && Next(w, step, w')
    ensures Tidy(w') <==> !Litters(w, step)
  {
    match step
    case Upload(name, bytes, meta, io) =>
      var stored :| UploadStep(w, name, bytes, meta, io, stored, w');
      if ValidName(Trim(name)) {
        FirstFreeIsFree(w.inbox, Trim(name), stored);
        StoringIsTidyIff(w, stored, bytes, meta, io, w');
      }
    case Accept(name, t, cleared) =>
      var final :| AcceptStep(w, name, t, cleared, final, w');
      AcceptIsTidyIff(w, step, final, w');
    case Discard(name, removal, cleared) =>
      if Resolves(w.inbox, name) && removal.Removed? { DepartureIsTidyIff(w, name, cleared, w'); }
  }

  ghost predicate TidyUpTo(ws: seq<World>, i: nat)
    requires i < |ws|
  {
    forall m :: 0 <= m <= i ==> Tidy(ws[m])
  }

  lemma TidyOneMore(ws: seq<World>, steps: seq<Step>, i: nat)
    requires Follows(ws, steps) && i < |steps| && TidyUpTo(ws, i)
    ensures TidyUpTo(ws, i + 1) <==> !Litters(ws[i], steps[i])
  {
    assert StepAt(ws, steps, i) && Tidy(ws[i]);
    StepIsTidyIff(ws[i], steps[i], ws[i + 1]);
    assert TidyUpTo(ws, i + 1) <==> Tidy(ws[i + 1]);
  }

  /** Over every run from a tidy folder: it is tidy all along iff no step left
      anything behind. */
  lemma {:induction false} RunsStayTidyIff(ws: seq<World>, steps: seq<Step>, i: nat)
    requires Follows(ws, steps) && Tidy(ws[0]) && i < |ws|
    ensures TidyUpTo(ws, i) <==> forall m :: 0 <= m < i ==> !Litters(ws[m], steps[m])
  {
    if i > 0 {
      RunsStayTidyIff(ws, steps, i - 1);
      if TidyUpTo(ws, i - 1) { TidyOneMore(ws, steps, i - 1); }
    }
  }

  // ---- What a failed upload leaves ----

  /** The step is an upload that lands under the name `v`. */
  ghost predicate LandsAs(w: World, step: Step, v: string) {
    && step.Upload? && ValidName(Trim(step.name))
    && FirstFree(w.inbox, Trim(step.name), v) && Lands(w.inbox, v, step.storing)
  }

  lemma UploadLeftoverIff(w: World, step: Step, stored: string, w': World, v: string)
    requires step.Upload? && UploadStep(w, step.name, step.bytes, step.meta, step.storing, stored, w')
    requires ValidName(v) && TempName(v) in w.inbox
    ensures TempName(v) in w'.inbox <==> !LandsAs(w, step, v)
  {
    if ValidName(Trim(step.name)) {
      FirstFreeIsFree(w.inbox, Trim(step.name), stored);
      NamesNeverCollide(stored, v, stored);
      NamesNeverCollide(v, stored, v);
      if FirstFree(w.inbox, Trim(step.name), v) { FirstFreeIsUnique(w.inbox, Trim(step.name), v, stored); }
      if v == stored {
        StoringLeavesTemp(w.inbox, stored, step.bytes, step.meta, step.storing);
      } else {
        StoringTouches(w.inbox, stored, step.bytes, step.meta, step.storing, TempName(v));
      }
    }
  }

  lemma DepartureKeepsLeftover(inbox: Folder, name: string, cleared: bool, v: string)
    requires ValidName(name) && ValidName(v) && TempName(v) in inbox
    ensures TempName(v) in Departed(inbox, name, cleared)
  {
    NamesNeverCollide(name, v, name);
    NamesNeverCollide(v, v, name);
  }

  /** The owner can neither accept nor discard a leftover temporary file: it goes
      exactly when a later upload lands under its name. */
  lemma LeftoverStaysIff(w: World, step: Step, w': World, v: string)
    requires Next(w, step, w') && ValidName(v) && TempName(v) in w.inbox
    ensures TempName(v) in w'.inbox <==> !LandsAs(w, step, v)
  {
    match step
    case Upload(name, bytes, meta, io) =>
      var stored :| UploadStep(w, name, bytes, meta, io, stored, w');
      UploadLeftoverIff(w, step, stored, w', v);
    case Accept(name, t, cleared) =>
      if Resolves(w.inbox, name) { DepartureKeepsLeftover(w.inbox, name, cleared, v); }
    case Discard(name, _, cleared) =>
      if Resolves(w.inbox, name) { DepartureKeepsLeftover(w.inbox, name, cleared, v); }
  }
}
