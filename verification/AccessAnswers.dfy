/** What each handler's answer means, written out in terms of the state, of the
    step that was taken, or of the run that led there. */
module AccessAnswers {
  import opened Options
  import opened Numbers
  import opened Canonical
  import opened Grants
  import opened Scope
  import opened Access
  import opened AccessSafety
  import opened AccessProvenance

  ghost predicate Unexpired(g: Grant, now: nat) {
    g.expires == None || (g.expires.Some? && now < g.expires.value)
  }

  // ---- Pair requests ----

  /** The nodes whose requests are less than ten minutes old. */
  ghost function Waiting(s: State, now: nat): set<string> {
    set n | n in s.pending && Young(s.pending[n], now)
  }

  lemma PrunedIsWaiting(s: State, now: nat)
    ensures Pruned(s.pending, now).Keys == Waiting(s, now)
    ensures |Pruned(s.pending, now)| == |Waiting(s, now)|
  {
    assert Pruned(s.pending, now).Keys == Waiting(s, now);
  }

  /** The key behind the request holds an unexpired grant that ends at `expires`. */
  ghost predicate HoldsGrant(c: Crypto, s: State, pubkey: string, now: nat, expires: Option<nat>) {
    exists g :: g in s.grants && c.fingerprint(pubkey) == Some(g.fingerprint) && Unexpired(g, now) && g.expires == expires
  }

  lemma LiveGrantIff(c: Crypto, s: State, pubkey: string, fp: string, now: nat)
    requires Digests(c) && Inv(c, s) && c.fingerprint(pubkey) == Some(fp)
    ensures HasLiveGrant(s, fp, now) <==> exists expires :: HoldsGrant(c, s, pubkey, now, expires)
    ensures forall expires :: HoldsGrant(c, s, pubkey, now, expires) ==>
              FindByFingerprint(s.grants, fp).Some? && FindByFingerprint(s.grants, fp).value.expires == expires
  {
    var found := FindByFingerprint(s.grants, fp);
    forall g | g in s.grants && g.fingerprint == fp ensures found == Some(g) {
      var i :| 0 <= i < |s.grants| && s.grants[i] == g;
      var j :| 0 <= j < |s.grants| && s.grants[j] == found.value;
    }
    if HasLiveGrant(s, fp, now) { assert HoldsGrant(c, s, pubkey, now, found.value.expires); }
  }

  /** The request is signed by a key whose fingerprint begins with the node id. */
  predicate Proven(c: Crypto, req: PairRequest) {
    && c.verify(req.pubkey, PairString(req), req.signature)
    && c.fingerprint(req.pubkey).Some?
    && |c.fingerprint(req.pubkey).value| >= 16
    && c.fingerprint(req.pubkey).value[..16] == req.nodeId
  }

  /** Every answer to a pair request. The last one says that the request now waits. */
  lemma PairAnswers(c: Crypto, s: State, req: PairRequest, now: nat)
    requires Digests(c) && Inv(c, s)
    ensures var r, s' := PairReplyTo(c, s, req, now), AfterPair(c, s, req, now);
            && (r == BadSignature <==> !c.verify(req.pubkey, PairString(req), req.signature))
            && (r == BadKey <==> c.verify(req.pubkey, PairString(req), req.signature) && c.fingerprint(req.pubkey) == None)
            && (r.BadSignature? || r.BadKey? || r.WrongNodeId? <==> !Proven(c, req))
            && (forall e :: r == Answer(StatusResponse(Approved, e)) <==>
                  Proven(c, req) && HoldsGrant(c, s, req.pubkey, now, e))
            && (r == TooMany <==>
                  && Proven(c, req) && (forall e :: !HoldsGrant(c, s, req.pubkey, now, e))
                  && req.nodeId !in Waiting(s, now) && |Waiting(s, now)| >= 64)
            && (r == Answer(StatusResponse(Pending, None)) <==>
                  && Proven(c, req) && (forall e :: !HoldsGrant(c, s, req.pubkey, now, e))
                  && (req.nodeId in Waiting(s, now) || |Waiting(s, now)| < 64))
            && (r == Answer(StatusResponse(Pending, None)) ==> Waits(s', req.nodeId, PendingEntry(req, now)))
  {
    PrunedIsWaiting(s, now);
    if Genuine(c, req) { LiveGrantIff(c, s, req.pubkey, c.fingerprint(req.pubkey).value, now); }
  }

  // ---- Decisions ----

  /** What an approval gives: one grant for the key, to the whole share, files unless
      refused and printing only if asked for, until the period is over; every other
      key keeps what it had. */
  lemma ApprovalGives(c: Crypto, s: State, d: Decision, now: nat, s': State) returns (g: Grant)
    requires Digests(c) && Approves(c, s, d) && DecideStep(c, s, d, now, s')
    ensures var req := s.pending[d.node].request;
            && c.fingerprint(req.pubkey) == Some(g.fingerprint) && g.nodeId == req.nodeId && g.name == req.name
            && g.granted == now && g.expires == (if d.duration == 0 then None else Some(now + d.duration))
            && g.paths == [] && (forall file :: CanReadFile(g.paths, file))
            && (g.allowFiles <==> d.allowFiles != Some(false)) && (g.allowPrint <==> d.allowPrint == Some(true))
    ensures forall x :: x in s'.grants <==> x == g || (x in s.grants && x.fingerprint != g.fingerprint)
  {
    var req := s.pending[d.node].request;
    g := NewGrant(c.fingerprint(req.pubkey).value, req, d, now);
    forall x ensures x in Without(s.grants, g.fingerprint) <==> x in s.grants && x.fingerprint != g.fingerprint {
      WithoutMembers(s.grants, g.fingerprint, x);
    }
  }

  /** Every answer to a decision, with what it did. Whatever the answer, the request no
      longer waits. */
  lemma DecisionAnswers(c: Crypto, s: State, d: Decision, now: nat, s': State)
    requires Digests(c) && Inv(c, s) && DecideStep(c, s, d, now, s')
    ensures var r := DecisionReplyTo(c, s, d, now);
            && d.node !in s'.pending
            && (r == NoPendingRequest <==> d.node !in s.pending)
            && (r == Decided(StatusResponse(Denied, None)) <==> d.node in s.pending && d.verdict != "approve")
            && (r == NoPermission <==> d.node in s.pending && d.verdict == "approve"
                                       && d.allowFiles == Some(false) && d.allowPrint != Some(true))
            && (r != NoFingerprint)
            && (r == Decided(StatusResponse(Denied, None)) ==>
                  Recalls(s', d.node, Remembered(StatusResponse(Denied, None), now)))
            && (r.Decided? && r.response.status == Approved ==>
                  r.response.expires == if d.duration == 0 then None else Some(now + d.duration))
            && (r.Decided? && r.response.status == Approved <==> Approves(c, s, d))
            && (!Approves(c, s, d) ==> s'.grants == s.grants)
  {
    if d.node in s.pending { assert PendingOk(c, d.node, s.pending[d.node]); }
  }

  // ---- Updates ----

  /** The scope and permissions a key has from now on. */
  ghost predicate Tuned(s: State, fp: string, paths: seq<string>, files: bool, printing: bool) {
    forall g :: g in s.grants && g.fingerprint == fp ==> g.paths == paths && g.allowFiles == files && g.allowPrint == printing
  }

  /** An update of a known key: its scope becomes exactly the given one, a permission
      changes only if given, and nothing else about any grant changes. */
  lemma {:induction false} UpdateIsExact(gs: seq<Grant>, u: GrantUpdate, n: nat)
    requires UniqueFingerprints(gs) && n < |gs|
    ensures var g, g' := gs[n], Updated(gs, u)[n];
            if g.fingerprint != u.fingerprint then g' == g
            else
              && (forall file :: CanReadFile(g'.paths, file) <==> u.paths == [] || Covered(u.paths, file))
              && g'.paths == u.paths
              && (u.allowFiles.None? ==> g'.allowFiles == g.allowFiles)
              && (u.allowFiles.Some? ==> g'.allowFiles == u.allowFiles.value)
              && (u.allowPrint.None? ==> g'.allowPrint == g.allowPrint)
              && (u.allowPrint.Some? ==> g'.allowPrint == u.allowPrint.value)
              && g'.fingerprint == g.fingerprint && g'.nodeId == g.nodeId && g'.name == g.name
              && g'.granted == g.granted && g'.expires == g.expires
  {
    if gs[0].fingerprint != u.fingerprint && n > 0 { UpdateIsExact(gs[1..], u, n - 1); }
  }

  /** The answers to an update. */
  lemma UpdateAnswers(s: State, u: GrantUpdate)
    requires UniqueFingerprints(s.grants)
    ensures var r, after := UpdateReplyTo(s, u), Updated(s.grants, u);
            && (r == UnknownGrant <==> forall g :: g in s.grants ==> g.fingerprint != u.fingerprint)
            && (r == UnknownGrant ==> after == s.grants)
            && (r.Changed? ==> r.info in after && r.info.fingerprint == u.fingerprint && AllowsSomething(r.info))
            && (r == NothingAllowed ==> exists g :: g in after && g.fingerprint == u.fingerprint
                                                    && !g.allowFiles && !g.allowPrint)
  {
    UpdatedMembers(s.grants, u);
    if UpdateReplyTo(s, u) == UnknownGrant { UpdateOfAbsent(s.grants, u); }
  }

  /** The step may change the scope or the permissions of key `fp`. */
  ghost predicate Retunes(step: Step, fp: string) {
    || step.Rescope? || step.Restart? || step == Revoke(fp)
    || (step.Update? && step.update.fingerprint == fp)
    || (step.Decide? && step.decision.verdict == "approve" && |fp| >= 16 && step.decision.node == fp[..16])
  }

  lemma DecideKeepsTuning(c: Crypto, s: State, d: Decision, now: nat, s': State, fp: string, g: Grant)
    requires Digests(c) && Inv(c, s) && DecideStep(c, s, d, now, s') && !Retunes(Decide(d), fp)
    requires g in s'.grants && g.fingerprint == fp
    ensures g in s.grants
  {
    if Approves(c, s, d) {
      assert PendingOk(c, d.node, s.pending[d.node]);
      WithoutMembers(s.grants, c.fingerprint(s.pending[d.node].request.pubkey).value, g);
    }
  }

  lemma {:induction false} OtherUpdate(gs: seq<Grant>, u: GrantUpdate, g: Grant)
    requires g in Updated(gs, u) && g.fingerprint != u.fingerprint
    ensures g in gs
  {
    if gs[0].fingerprint == u.fingerprint {
      assert g in gs[1..];
    } else if g != gs[0] {
      OtherUpdate(gs[1..], u, g);
    }
  }

  lemma StaysTuned(c: Crypto, s: State, ev: Event, s': State, fp: string, paths: seq<string>, files: bool, printing: bool)
    requires Digests(c) && Inv(c, s) && Next(c, s, ev, s') && Tuned(s, fp, paths, files, printing) && !Retunes(ev.step, fp)
    ensures Tuned(s', fp, paths, files, printing)
  {
    forall g | g in s'.grants && g.fingerprint == fp ensures g in s.grants {
      if ev.step.Decide? {
        DecideKeepsTuning(c, s, ev.step.decision, ev.now, s', fp, g);
      } else if ev.step.Update? {
        OtherUpdate(s.grants, ev.step.update, g);
      } else if ev.step.Revoke? {
        WithoutMembers(s.grants, ev.step.fingerprint, g);
      } else if ev.step.Sweep? {
        LiveMembers(s.grants, ev.now, g);
      }
    }
  }

  lemma UpdateTunes(c: Crypto, states: seq<State>, log: seq<Event>, k: nat, g: Grant)
    requires Digests(c) && Run(c, states, log) && k < |log| && log[k].step.Update?
    requires g in states[k].grants && g.fingerprint == log[k].step.update.fingerprint
    ensures var u := log[k].step.update;
            Tuned(states[k + 1], u.fingerprint, u.paths, if u.allowFiles.Some? then u.allowFiles.value else g.allowFiles,
                  if u.allowPrint.Some? then u.allowPrint.value else g.allowPrint)
  {
    var u := log[k].step.update;
    ReachableStatesAreSafe(c, states, log, k);
    assert StepAt(c, states, log, k);
    var gs, after := states[k].grants, states[k + 1].grants;
    var i :| 0 <= i < |gs| && gs[i] == g;
    forall g' | g' in after && g'.fingerprint == u.fingerprint ensures g' == after[i] {
      var n :| 0 <= n < |after| && after[n] == g';
      UpdateIsExact(gs, u, n);
    }
    UpdateIsExact(gs, u, i);
  }

  lemma RunStaysTuned(c: Crypto, states: seq<State>, log: seq<Event>, i: nat, fp: string,
                      paths: seq<string>, files: bool, printing: bool)
    requires Digests(c) && Run(c, states, log) && i < |log| && Tuned(states[i], fp, paths, files, printing)
    requires !Retunes(log[i].step, fp)
    ensures Tuned(states[i + 1], fp, paths, files, printing)
  {
    ReachableStatesAreSafe(c, states, log, i);
    assert StepAt(c, states, log, i);
    StaysTuned(c, states[i], log[i], states[i + 1], fp, paths, files, printing);
  }

  lemma {:induction false} TunedThroughout(c: Crypto, states: seq<State>, log: seq<Event>, k: nat, i: nat, fp: string,
                                           paths: seq<string>, files: bool, printing: bool)
    requires Digests(c) && Run(c, states, log) && k <= i < |states| && Tuned(states[k], fp, paths, files, printing)
    requires forall m :: k <= m < i ==> !Retunes(log[m].step, fp)
    ensures Tuned(states[i], fp, paths, files, printing)
  {
    if k < i {
      TunedThroughout(c, states, log, k, i - 1, fp, paths, files, printing);
      RunStaysTuned(c, states, log, i - 1, fp, paths, files, printing);
    }
  }

  /** Over every run: until the key is updated, rescoped, approved again, revoked or
      the daemon restarted, a request let in for it is served under the scope and the
      permissions of its last update. */
  lemma UpdateGoverns(c: Crypto, states: seq<State>, log: seq<Event>, k: nat, i: nat, before: Grant, g: Grant)
    requires Digests(c) && Run(c, states, log) && k < i < |log| && log[k].step.Update? && log[i].step.Request?
    requires before in states[k].grants && before.fingerprint == log[k].step.update.fingerprint == g.fingerprint
    requires forall m :: k < m < i ==> !Retunes(log[m].step, g.fingerprint)
    requires RequireAuth(c, states[i], log[i].step.signed, log[i].now) == Ok(g)
    ensures var u := log[k].step.update;
            && g.paths == u.paths
            && g.allowFiles == (if u.allowFiles.Some? then u.allowFiles.value else before.allowFiles)
            && g.allowPrint == (if u.allowPrint.Some? then u.allowPrint.value else before.allowPrint)
  {
    var u := log[k].step.update;
    var files := if u.allowFiles.Some? then u.allowFiles.value else before.allowFiles;
    var printing := if u.allowPrint.Some? then u.allowPrint.value else before.allowPrint;
    UpdateTunes(c, states, log, k, before);
    TunedThroughout(c, states, log, k + 1, i, g.fingerprint, u.paths, files, printing);
    assert g in states[i].grants;
  }

  lemma ApprovalTunes(c: Crypto, states: seq<State>, log: seq<Event>, k: nat, d: Decision, fp: string)
    requires Digests(c) && Run(c, states, log) && k < |log| && log[k].step == Decide(d)
    requires Approves(c, states[k], d) && c.fingerprint(states[k].pending[d.node].request.pubkey) == Some(fp)
    ensures Tuned(states[k + 1], fp, [], d.allowFiles != Some(false), d.allowPrint == Some(true))
  {
    assert StepAt(c, states, log, k);
    var given := ApprovalGives(c, states[k], d, log[k].now, states[k + 1]);
  }

  /** Until then a newly approved key is served the whole share. */
  lemma ApprovalGoverns(c: Crypto, states: seq<State>, log: seq<Event>, k: nat, i: nat, d: Decision, g: Grant)
    requires Digests(c) && Run(c, states, log) && k < i < |log| && log[k].step == Decide(d) && log[i].step.Request?
    requires Approves(c, states[k], d) && c.fingerprint(states[k].pending[d.node].request.pubkey) == Some(g.fingerprint)
    requires forall m :: k < m < i ==> !Retunes(log[m].step, g.fingerprint)
    requires RequireAuth(c, states[i], log[i].step.signed, log[i].now) == Ok(g)
    ensures g.paths == [] && (g.allowFiles <==> d.allowFiles != Some(false)) && (g.allowPrint <==> d.allowPrint == Some(true))
  {
    ApprovalTunes(c, states, log, k, d, g.fingerprint);
    TunedThroughout(c, states, log, k + 1, i, g.fingerprint, [], d.allowFiles != Some(false), d.allowPrint == Some(true));
    assert g in states[i].grants;
  }

  // ---- Restarts ----

  /** A restart keeps every grant's identity and period, and everything about a grant
      that allows something; one that allows nothing is as the file says. */
  lemma RestartKeeps(c: Crypto, s: State, ev: Event, s': State)
    requires Digests(c) && Next(c, s, ev, s') && ev.step.Restart?
    ensures forall g :: g in s.grants && (g.allowFiles || g.allowPrint) ==> g in s'.grants
    ensures |s'.grants| == |s.grants| && forall i :: 0 <= i < |s.grants| ==>
              && s'.grants[i].fingerprint == s.grants[i].fingerprint && s'.grants[i].nodeId == s.grants[i].nodeId
              && s'.grants[i].expires == s.grants[i].expires
    ensures forall i :: 0 <= i < |s.grants| && !s.grants[i].allowFiles && !s.grants[i].allowPrint ==>
              if s.grants[i].fingerprint !in ev.step.file then s'.grants[i] == s.grants[i]
              else
                var p := ev.step.file[s.grants[i].fingerprint];
                && s'.grants[i].paths == p.paths
                && s'.grants[i].allowFiles == p.allowFiles && s'.grants[i].allowPrint == p.allowPrint
    ensures s'.pending == map[] && s'.decisions == map[] && s'.seen == map[]
  {
    forall g | g in s.grants && (g.allowFiles || g.allowPrint) ensures g in s'.grants {
      var i :| 0 <= i < |s.grants| && s.grants[i] == g;
      assert s'.grants[i] == g;
    }
  }

  // ---- Status polls ----

  /** Step `j` made the daemon remember outcome `o` for node `n`: a denial of a waiting
      request, or a notification about the daemon's own request. */
  ghost predicate RecordedAt(states: seq<State>, log: seq<Event>, j: nat, n: string, o: Remembered) {
    && j < |log| && j < |states| && log[j].now == o.at
    && (log[j].step == Notified(n, o.response)
        || (&& log[j].step.Decide? && log[j].step.decision.node == n && log[j].step.decision.verdict != "approve"
            && n in states[j].pending && o.response == StatusResponse(Denied, None)))
  }

  ghost predicate Recorded(states: seq<State>, log: seq<Event>, i: nat, n: string, o: Remembered) {
    exists j: nat :: j < i && RecordedAt(states, log, j, n, o)
  }

  lemma RecordedNow(c: Crypto, states: seq<State>, log: seq<Event>, i: nat, n: string)
    requires Digests(c) && Follows(c, states, log) && i < |log| && n in states[i + 1].decisions
    ensures Recalls(states[i], n, states[i + 1].decisions[n]) || RecordedAt(states, log, i, n, states[i + 1].decisions[n])
  {
    assert StepAt(c, states, log, i);
    StepDecisions(c, states[i], log[i], states[i + 1]);
  }

  lemma {:induction false} RecalledWasRecorded(c: Crypto, states: seq<State>, log: seq<Event>, i: nat, n: string)
    requires Digests(c) && Run(c, states, log) && i < |states| && n in states[i].decisions
    ensures Recorded(states, log, i, n, states[i].decisions[n])
  {
    if i > 0 {
      RecordedNow(c, states, log, i - 1, n);
      if !RecordedAt(states, log, i - 1, n, states[i].decisions[n]) {
        RecalledWasRecorded(c, states, log, i - 1, n);
        var j: nat :| j < i - 1 && RecordedAt(states, log, j, n, states[i].decisions[n]);
      }
    }
  }

  ghost predicate HasUnexpired(s: State, node: string, now: nat) {
    exists g :: g in s.grants && g.nodeId == node && Unexpired(g, now)
  }

  lemma UnexpiredIsFound(s: State, node: string, now: nat)
    ensures var g := FindByNode(LiveGrants(s.grants, now), node);
            && (g.Some? <==> HasUnexpired(s, node, now))
            && (g.Some? ==> g.value in s.grants && g.value.nodeId == node && Unexpired(g.value, now))
  {
    forall g ensures g in LiveGrants(s.grants, now) <==> g in s.grants && Live(g, now) { LiveMembers(s.grants, now, g); }
  }

  /** Every status a poll can report, and when. */
  lemma PollReports(s: State, node: string, now: nat)
    ensures var r, waits, told := StatusLookup(s, node, now), node in s.pending, node in s.decisions;
            && (waits ==> r == StatusResponse(Pending, None))
            && (!waits && told ==> r == s.decisions[node].response)
            && (!waits && !told && HasUnexpired(s, node, now) ==>
                  exists g :: g in s.grants && g.nodeId == node && Unexpired(g, now) && r == StatusResponse(Approved, g.expires))
            && (!waits && !told && !HasUnexpired(s, node, now) ==> r == StatusResponse(Unknown, None))
  {
    UnexpiredIsFound(s, node, now);
  }

  /** Some approval of `node` stands, with this expiry. */
  ghost predicate ApprovalStands(
      c: Crypto, states: seq<State>, log: seq<Event>, i: nat, node: string, now: nat, expires: Option<nat>)
  {
    exists g :: Granted(c, states, log, i, g) && g.nodeId == node && Unexpired(g, now) && g.expires == expires
  }

  /** Over every run: a poll is told "approved" only of an outcome the daemon was
      notified of, or of an approval that is neither revoked nor over, with its expiry;
      "denied" only of a recorded outcome; "unknown" exactly if nothing waits, nothing
      else is remembered and no approval stands in the store. */
  lemma PollIsExact(c: Crypto, states: seq<State>, log: seq<Event>, i: nat, node: string)
    requires Digests(c) && Run(c, states, log) && i < |log|
    ensures var s, now := states[i], log[i].now;
            var r := StatusLookup(s, node, now);
            && (r.status == Approved ==>
                  || (exists at :: Recorded(states, log, i, node, Remembered(r, at)))
                  || ApprovalStands(c, states, log, i, node, now, r.expires))
            && (r.status == Denied ==> exists at :: Recorded(states, log, i, node, Remembered(r, at)))
            && (r.status == Unknown <==>
                  && node !in s.pending
                  && (node in s.decisions ==> s.decisions[node].response.status == Unknown)
                  && (node !in s.decisions ==> !HasUnexpired(s, node, now)))
  {
    var s, now := states[i], log[i].now;
    PollReports(s, node, now);
    if node !in s.pending && node in s.decisions {
      RecalledWasRecorded(c, states, log, i, node);
      assert s.decisions[node] == Remembered(StatusLookup(s, node, now), s.decisions[node].at);
    } else if node !in s.pending && HasUnexpired(s, node, now) {
      var g :| g in s.grants && g.nodeId == node && Unexpired(g, now)
               && StatusLookup(s, node, now) == StatusResponse(Approved, g.expires);
      RunIsTraced(c, states, log, i);
      assert Granted(c, states, log, i, g);
    }
  }

  /** Who is told a status: the holder of the key that the node id was cut from, under
      a fresh signature, always; and what everybody else is told. */
  lemma PollAnswersOwner(c: Crypto, s: State, r: SignedRequest, queried: string, now: nat)
    requires Digests(c)
    ensures var a, v := PollReplyTo(c, s, r, queried, now), VerifySigned(c, r, now);
            && (v.Err? <==> a.Refused? && a.error != Replayed) && (v.Err? ==> a == Refused(v.error))
            && (v.Ok? ==>
                  var fp, replayed := c.fingerprint(v.value.pub), v.value.sig in s.seen && now <= s.seen[v.value.sig] + 900;
                  && (a == Refused(Replayed) <==> replayed)
                  && (a == NotYours <==> !replayed && v.value.node != queried)
                  && (a == PollBadKey <==> !replayed && v.value.node == queried && fp == None)
                  && (a == PollWrongNode <==> !replayed && v.value.node == queried && fp.Some? && fp.value[..16] != queried)
                  && (a == Status(StatusLookup(s, queried, now)) <==>
                        !replayed && v.value.node == queried && fp.Some? && fp.value[..16] == queried))
  {
  }

  // ---- Refusals ----

  predicate HasHeaders(r: SignedRequest) {
    r.node.Some? && r.pub.Some? && r.ts.Some? && r.sig.Some?
  }

  /** The request was made within fifteen minutes of `now`. */
  predicate InTime(now: nat, ts: nat) { now <= ts + 900 && ts <= now + 900 }

  /** What a request signs when it carries timestamp `ts`. */
  function TextOf(r: SignedRequest, ts: nat): string {
    RequestString(r.verb, r.pathQ, ts, if r.nonce.Some? then r.nonce.value else "", r.body)
  }

  /** When headers are refused, and who speaks when they are not. */
  lemma HeadersAnswer(c: Crypto, r: SignedRequest, now: nat)
    ensures var v := VerifySigned(c, r, now);
            && (v == Err(Unauthenticated) <==> !HasHeaders(r))
            && (v == Err(BadTimestamp) <==> HasHeaders(r) && forall ts :: Parse(r.ts.value, 10) != Some(ts))
            && (v == Err(ClockSkew) <==> HasHeaders(r) && exists ts :: Parse(r.ts.value, 10) == Some(ts) && !InTime(now, ts))
            && (v == Err(BadRequestSignature) <==>
                  HasHeaders(r) && exists ts :: Parse(r.ts.value, 10) == Some(ts) && InTime(now, ts)
                                                && !c.verify(r.pub.value, TextOf(r, ts), r.sig.value))
            && (v.Ok? <==>
                  HasHeaders(r) && exists ts :: Parse(r.ts.value, 10) == Some(ts) && InTime(now, ts)
                                                && c.verify(r.pub.value, TextOf(r, ts), r.sig.value))
            && (v.Ok? ==> v.value == Caller(r.node.value, r.pub.value, r.sig.value))
  {
    if HasHeaders(r) {
      var ts := Parse(r.ts.value, 10);
      if ts.Some? { assert Parse(r.ts.value, 10) == Some(ts.value); }
    }
  }

  ghost predicate GrantOf(s: State, node: string, g: Grant) {
    g in s.grants && g.nodeId == node
  }

  /** When a verified caller is refused for want of a grant, and what it is told. */
  lemma StrangerAnswer(c: Crypto, s: State, r: SignedRequest, now: nat, v: Caller)
    requires VerifySigned(c, r, now) == Ok(v)
    ensures var a := RequireAuth(c, s, r, now);
            var replayed, granted := v.sig in s.seen && now <= s.seen[v.sig] + 900, exists g :: GrantOf(s, v.node, g);
            && (a == Err(Replayed) <==> replayed)
            && (a == Err(StillPending) <==> !replayed && !granted && v.node in s.pending)
            && (a == Err(WasDenied) <==>
                  && !replayed && !granted && v.node !in s.pending
                  && v.node in s.decisions && s.decisions[v.node].response.status == Denied)
            && (a == Err(UnknownNode) <==>
                  && !replayed && !granted && v.node !in s.pending
                  && (v.node in s.decisions ==> s.decisions[v.node].response.status != Denied))
  {
    var g := FindByNode(s.grants, v.node);
    if g.Some? { assert GrantOf(s, v.node, g.value); }
  }

  /** When a caller whose node has a grant is let in, and what it is told otherwise. */
  lemma GranteeAnswer(c: Crypto, s: State, r: SignedRequest, now: nat, v: Caller, g: Grant)
    requires Digests(c) && DistinctNodeIds(c) && Inv(c, s)
    requires VerifySigned(c, r, now) == Ok(v) && NotReplayed(s.seen, v.sig, now) && GrantOf(s, v.node, g)
    ensures var a := RequireAuth(c, s, r, now);
            && (a == Err(Expired) <==> !Unexpired(g, now))
            && (a == Err(BadKeyHeader) <==> Unexpired(g, now) && c.fingerprint(v.pub) == None)
            && (a == Err(IdentityChanged) <==>
                  Unexpired(g, now) && c.fingerprint(v.pub) != None && c.fingerprint(v.pub) != Some(g.fingerprint))
            && (a == Ok(g) <==> Unexpired(g, now) && c.fingerprint(v.pub) == Some(g.fingerprint))
  {
    NodeFindsGrant(c, s, g);
  }
}
