/** Whole-run safety: an accepted request traces back to a signed pair request
    and an approval that is neither revoked nor expired; and such an approval
    does let its holder in. */
module AccessProvenance {
  import opened Options
  import opened Canonical
  import opened Grants
  import opened Access
  import opened AccessSafety
  import opened AccessRuns
  import opened Sets

  /** The pending entry was queued by an earlier step of the log. */
  ghost predicate PendingFrom(log: seq<Event>, i: nat, e: PendingEntry) {
    exists j :: 0 <= j < i && j < |log| && log[j] == Event(e.received, Pair(e.request))
  }

  /** Step `j` is a validly signed pair request from the key behind `g`, step
      `k` approves that very request and fixes the expiry, and nobody revokes the
      grant before `i`. */
  ghost predicate GrantedBy(c: Crypto, states: seq<State>, log: seq<Event>, i: nat, g: Grant, j: nat, k: nat) {
    && j < k < i <= |log| < |states|
    && log[j].step.Pair?
    && ValidlySigned(c, log[j].step.req)
    && log[j].step.req.nodeId == g.nodeId
    && |g.fingerprint| >= 16 && g.nodeId == g.fingerprint[..16]
    && c.fingerprint(log[j].step.req.pubkey) == Some(g.fingerprint)
    && log[k].step.Decide?
    && log[k].step.decision.node == g.nodeId
    && Approves(c, states[k], log[k].step.decision)
    && states[k].pending[g.nodeId] == PendingEntry(log[j].step.req, log[j].now)
    && g.granted == log[k].now
    && (var duration := log[k].step.decision.duration;
        g.expires == if duration == 0 then None else Some(log[k].now + duration))
    && forall m :: k < m < i ==> log[m].step != Revoke(g.fingerprint)
  }

  ghost predicate Granted(c: Crypto, states: seq<State>, log: seq<Event>, i: nat, g: Grant) {
    exists j, k :: GrantedBy(c, states, log, i, g, j, k)
  }

  ghost predicate Traced(c: Crypto, states: seq<State>, log: seq<Event>, i: nat)
    requires i < |states|
  {
    && (forall n :: n in states[i].pending ==> PendingFrom(log, i, states[i].pending[n]))
    && (forall g :: g in states[i].grants ==> Granted(c, states, log, i, g))
  }

  /** A grant with the same identity and dates stays granted past any step but its revocation. */
  lemma GrantExtends(c: Crypto, states: seq<State>, log: seq<Event>, i: nat, g: Grant, g': Grant)
    requires Granted(c, states, log, i, g) && i < |log| && log[i].step != Revoke(g.fingerprint)
    requires SameIdentity(g, g')
    ensures Granted(c, states, log, i + 1, g')
  {
    var j, k :| GrantedBy(c, states, log, i, g, j, k);
    assert GrantedBy(c, states, log, i + 1, g', j, k);
  }

  lemma ApprovalIsTraced(c: Crypto, states: seq<State>, log: seq<Event>, i: nat, d: Decision)
    requires Digests(c) && i < |log| < |states| && Inv(c, states[i]) && Traced(c, states, log, i)
    requires log[i].step == Decide(d) && Approves(c, states[i], d)
    ensures var req := states[i].pending[d.node].request;
            Granted(c, states, log, i + 1, NewGrant(c.fingerprint(req.pubkey).value, req, d, log[i].now))
  {
    var e := states[i].pending[d.node];
    assert PendingOk(c, d.node, e);
    var j :| 0 <= j < i && j < |log| && log[j] == Event(e.received, Pair(e.request));
    var g := NewGrant(c.fingerprint(e.request.pubkey).value, e.request, d, log[i].now);
    assert GrantedBy(c, states, log, i + 1, g, j, i);
  }

  ghost predicate SameIdentity(g: Grant, g': Grant) {
    && g'.fingerprint == g.fingerprint && g'.nodeId == g.nodeId
    && g'.granted == g.granted && g'.expires == g.expires
  }

  ghost predicate JustApproved(c: Crypto, s: State, ev: Event, g': Grant) {
    && ev.step.Decide? && Approves(c, s, ev.step.decision)
    && var req := s.pending[ev.step.decision.node].request;
       g' == NewGrant(c.fingerprint(req.pubkey).value, req, ev.step.decision, ev.now)
  }

  lemma DecidedOrigin(c: Crypto, s: State, d: Decision, now: nat, s': State, g: Grant)
    requires Digests(c) && DecideStep(c, s, d, now, s') && g in s'.grants
    ensures JustApproved(c, s, Event(now, Decide(d)), g) || g in s.grants
  {
    if Approves(c, s, d) {
      WithoutMembers(s.grants, c.fingerprint(s.pending[d.node].request.pubkey).value, g);
    }
  }

  /** The steps that rewrite scopes and permissions in place. */
  predicate Rewrites(step: Step) {
    step.Update? || step.Rescope? || step.Restart?
  }

  lemma RewritesInPlace(c: Crypto, s: State, ev: Event, s': State)
    requires Digests(c) && Next(c, s, ev, s') && Rewrites(ev.step)
    ensures |s.grants| == |s'.grants| && forall i :: 0 <= i < |s.grants| ==> SameIdentity(s.grants[i], s'.grants[i])
  {
    if ev.step.Update? {
      forall i | 0 <= i < |s.grants| ensures SameIdentity(s.grants[i], s'.grants[i]) {
        UpdateKeepsIdentity(s.grants, ev.step.update, i);
      }
    }
  }

  /** Where grants keep their places and identities, `g'` comes from the one in its place. */
  lemma InItsPlace(gs: seq<Grant>, gs': seq<Grant>, g': Grant) returns (g: Grant)
    requires |gs| == |gs'| && g' in gs' && forall i :: 0 <= i < |gs| ==> SameIdentity(gs[i], gs'[i])
    ensures g in gs && SameIdentity(g, g')
  {
    var n :| 0 <= n < |gs'| && gs'[n] == g';
    g := gs[n];
  }

  /** A grant of the next state was there before, or this step approved it. */
  lemma GrantOrigin(c: Crypto, s: State, ev: Event, s': State, g': Grant) returns (g: Grant)
    requires Digests(c) && Next(c, s, ev, s') && g' in s'.grants
    ensures JustApproved(c, s, ev, g') ||
            (g in s.grants && SameIdentity(g, g') && ev.step != Revoke(g.fingerprint))
  {
    g := g';
    if Rewrites(ev.step) {
      RewritesInPlace(c, s, ev, s');
      g := InItsPlace(s.grants, s'.grants, g');
    } else if ev.step.Decide? {
      DecidedOrigin(c, s, ev.step.decision, ev.now, s', g');
    } else if ev.step.Revoke? {
      WithoutMembers(s.grants, ev.step.fingerprint, g');
    } else if ev.step.Sweep? {
      LiveMembers(s.grants, ev.now, g');
    }
  }

  lemma StepGrants(c: Crypto, states: seq<State>, log: seq<Event>, i: nat, g': Grant)
    requires Digests(c) && i < |log| < |states| && Inv(c, states[i]) && Traced(c, states, log, i)
    requires Follows(c, states, log) && g' in states[i + 1].grants
    ensures Granted(c, states, log, i + 1, g')
  {
    assert StepAt(c, states, log, i);
    var g := GrantOrigin(c, states[i], log[i], states[i + 1], g');
    if JustApproved(c, states[i], log[i], g') {
      ApprovalIsTraced(c, states, log, i, log[i].step.decision);
    } else {
      GrantExtends(c, states, log, i, g, g');
    }
  }

  lemma PendingStaysTraced(c: Crypto, states: seq<State>, log: seq<Event>, i: nat, n: string)
    requires Digests(c) && Follows(c, states, log) && i < |log| && n in states[i + 1].pending
    requires n in states[i].pending ==> PendingFrom(log, i, states[i].pending[n])
    ensures PendingFrom(log, i + 1, states[i + 1].pending[n])
  {
    StepPending(c, states, log, i);
    var e := states[i + 1].pending[n];
    assert (n in states[i].pending && states[i].pending[n] == e) || log[i] == Event(e.received, Pair(e.request));
  }

  lemma {:induction false} RunIsTraced(c: Crypto, states: seq<State>, log: seq<Event>, i: nat)
    requires Digests(c) && Run(c, states, log) && i < |states|
    ensures Traced(c, states, log, i)
  {
    if i > 0 {
      RunIsTraced(c, states, log, i - 1);
      ReachableStatesAreSafe(c, states, log, i - 1);
      forall n | n in states[i].pending ensures PendingFrom(log, i, states[i].pending[n]) {
        PendingStaysTraced(c, states, log, i - 1, n);
      }
      forall g | g in states[i].grants ensures Granted(c, states, log, i, g) {
        StepGrants(c, states, log, i - 1, g);
      }
    }
  }

  /** Over every run of pairing, deciding, revoking, updating, sweeping, polling
      and requesting: a request that is let in was signed by the paired key, and
      that key asked earlier with a valid signature, was approved after that,
      has not been revoked since, and is still inside the approved period. */
  lemma AcceptedRequestWasApproved(c: Crypto, states: seq<State>, log: seq<Event>, i: nat, g: Grant)
    returns (j: nat, k: nat)
    requires Digests(c) && Run(c, states, log) && i < |log| && log[i].step.Request?
    requires RequireAuth(c, states[i], log[i].step.signed, log[i].now) == Ok(g)
    ensures GrantedBy(c, states, log, i, g, j, k)
    ensures var duration := log[k].step.decision.duration; duration == 0 || log[i].now < log[k].now + duration
    ensures var v := VerifySigned(c, log[i].step.signed, log[i].now);
            v.Ok? && v.value.node == g.nodeId && c.fingerprint(v.value.pub) == Some(g.fingerprint)
  {
    RunIsTraced(c, states, log, i);
    assert g in states[i].grants;
    j, k :| GrantedBy(c, states, log, i, g, j, k);
  }

  // ---- The other direction ----

  /** No two keys share a node id. */
  ghost predicate DistinctNodeIds(c: Crypto)
    requires Digests(c)
  {
    forall pk, pk' :: c.fingerprint(pk).Some? && c.fingerprint(pk').Some?
                      && NodeIdOf(c.fingerprint(pk).value) == NodeIdOf(c.fingerprint(pk').value)
                      ==> c.fingerprint(pk) == c.fingerprint(pk')
  }

  lemma NodeFindsGrant(c: Crypto, s: State, g: Grant)
    requires Digests(c) && DistinctNodeIds(c) && Inv(c, s) && g in s.grants
    ensures FindByNode(s.grants, g.nodeId) == Some(g)
  {
    var found := FindByNode(s.grants, g.nodeId);
    var other := found.value;
    assert GrantOk(c, g) && GrantOk(c, other);
    var i :| 0 <= i < |s.grants| && s.grants[i] == g;
    var j :| 0 <= j < |s.grants| && s.grants[j] == other;
    assert s.grants[i].fingerprint == s.grants[j].fingerprint;
  }

  /** The grant that approval `k` created is still in the store. */
  ghost predicate Holds(s: State, fp: string, node: string, expires: Option<nat>) {
    exists g :: g in s.grants && g.fingerprint == fp && g.nodeId == node && g.expires == expires
  }

  lemma StaysInPlace(gs: seq<Grant>, gs': seq<Grant>, g: Grant) returns (g': Grant)
    requires |gs| == |gs'| && g in gs && forall i :: 0 <= i < |gs| ==> SameIdentity(gs[i], gs'[i])
    ensures g' in gs' && SameIdentity(g, g')
  {
    var n :| 0 <= n < |gs| && gs[n] == g;
    g' := gs'[n];
  }

  lemma DecideKeepsGrant(c: Crypto, s: State, d: Decision, now: nat, s': State, g: Grant)
    requires Digests(c) && Inv(c, s) && DecideStep(c, s, d, now, s') && g in s.grants
    requires d.verdict == "approve" ==> d.node != g.nodeId
    ensures g in s'.grants
  {
    if Approves(c, s, d) {
      assert PendingOk(c, d.node, s.pending[d.node]) && GrantOk(c, g);
      WithoutMembers(s.grants, c.fingerprint(s.pending[d.node].request.pubkey).value, g);
    }
  }

  predicate Disturbs(step: Step, fp: string, node: string) {
    step == Revoke(fp) || (step.Decide? && step.decision.verdict == "approve" && step.decision.node == node)
  }

  /** A live grant survives every step but its revocation and a new approval of its node. */
  lemma GrantStays(c: Crypto, s: State, ev: Event, s': State, g: Grant) returns (g': Grant)
    requires Digests(c) && Inv(c, s) && Next(c, s, ev, s') && g in s.grants
    requires Live(g, ev.now) && !Disturbs(ev.step, g.fingerprint, g.nodeId)
    ensures g' in s'.grants && SameIdentity(g, g')
  {
    g' := g;
    if Rewrites(ev.step) {
      RewritesInPlace(c, s, ev, s');
      g' := StaysInPlace(s.grants, s'.grants, g);
    } else if ev.step.Decide? {
      DecideKeepsGrant(c, s, ev.step.decision, ev.now, s', g);
    } else if ev.step.Revoke? {
      WithoutMembers(s.grants, ev.step.fingerprint, g);
    } else if ev.step.Sweep? {
      LiveMembers(s.grants, ev.now, g);
    }
  }

  lemma RunKeepsGrant(c: Crypto, states: seq<State>, log: seq<Event>, i: nat, fp: string, node: string, expires: Option<nat>)
    requires Digests(c) && Run(c, states, log) && i < |log| && Holds(states[i], fp, node, expires)
    requires !Disturbs(log[i].step, fp, node) && (expires.None? || log[i].now < expires.value)
    ensures Holds(states[i + 1], fp, node, expires)
  {
    ReachableStatesAreSafe(c, states, log, i);
    assert StepAt(c, states, log, i);
    var g :| g in states[i].grants && g.fingerprint == fp && g.nodeId == node && g.expires == expires;
    var g' := GrantStays(c, states[i], log[i], states[i + 1], g);
  }

  ghost predicate Undisturbed(log: seq<Event>, k: nat, i: nat, fp: string, node: string) {
    forall m :: k < m < i && m < |log| ==> !Disturbs(log[m].step, fp, node)
  }

  lemma ApprovalStores(c: Crypto, states: seq<State>, log: seq<Event>, k: nat, d: Decision, fp: string)
    requires Digests(c) && Run(c, states, log) && k < |log|
    requires log[k].step == Decide(d) && Approves(c, states[k], d)
    requires c.fingerprint(states[k].pending[d.node].request.pubkey) == Some(fp)
    ensures NewGrant(fp, states[k].pending[d.node].request, d, log[k].now) in states[k + 1].grants
    ensures Holds(states[k + 1], fp, d.node, ExpiryOf(log[k].now, d.duration))
  {
    ReachableStatesAreSafe(c, states, log, k);
    assert PendingOk(c, d.node, states[k].pending[d.node]) && StepAt(c, states, log, k);
    assert NewGrant(fp, states[k].pending[d.node].request, d, log[k].now) in states[k + 1].grants;
  }

  lemma {:induction false} ApprovalLasts(
      c: Crypto, states: seq<State>, log: seq<Event>, k: nat, i: nat, d: Decision, fp: string)
    requires Digests(c) && Run(c, states, log) && k < i < |log|
    requires log[k].step == Decide(d) && Approves(c, states[k], d)
    requires c.fingerprint(states[k].pending[d.node].request.pubkey) == Some(fp)
    requires Undisturbed(log, k, i, fp, d.node)
    requires d.duration == 0 || log[i].now < log[k].now + d.duration
    ensures Holds(states[i], fp, d.node, ExpiryOf(log[k].now, d.duration))
  {
    if i == k + 1 {
      ApprovalStores(c, states, log, k, d, fp);
    } else {
      assert log[i - 1].now <= log[i].now;
      ApprovalLasts(c, states, log, k, i - 1, d, fp);
      RunKeepsGrant(c, states, log, i - 1, fp, d.node, ExpiryOf(log[k].now, d.duration));
    }
  }

  /** An approved key is let in by every fresh, properly signed request until
      it is revoked, re-approved or past its period. */
  lemma ApprovedRequestIsAccepted(
      c: Crypto, states: seq<State>, log: seq<Event>, k: nat, i: nat, d: Decision, r: SignedRequest, v: Caller)
    requires Digests(c) && DistinctNodeIds(c) && Run(c, states, log) && k < i < |log|
    requires log[k].step == Decide(d) && Approves(c, states[k], d)
    requires var fp := c.fingerprint(states[k].pending[d.node].request.pubkey).value;
             Undisturbed(log, k, i, fp, d.node) && c.fingerprint(v.pub) == Some(fp)
    requires d.duration == 0 || log[i].now < log[k].now + d.duration
    requires VerifySigned(c, r, log[i].now) == Ok(v) && v.node == d.node
    requires NotReplayed(states[i].seen, v.sig, log[i].now)
    ensures var a := RequireAuth(c, states[i], r, log[i].now);
            a.Ok? && c.fingerprint(v.pub) == Some(a.value.fingerprint)
  {
    var fp := c.fingerprint(v.pub).value;
    ApprovalLasts(c, states, log, k, i, d, fp);
    ReachableStatesAreSafe(c, states, log, i);
    var g :| g in states[i].grants && g.fingerprint == fp && g.nodeId == d.node
             && g.expires == ExpiryOf(log[k].now, d.duration);
    NodeFindsGrant(c, states[i], g);
  }

  // ---- Where intent and code part ----

  /** Outcome `o` for node `n` is remembered. */
  predicate Recalls(s: State, n: string, o: Remembered) {
    n in s.decisions && s.decisions[n] == o
  }

  /** Over every run: as long as an approval is neither disturbed nor expired, a
      poll says "approved" exactly if the node has not asked again and no other
      outcome is remembered for it. */
  lemma ApprovalShowsIff(c: Crypto, states: seq<State>, log: seq<Event>, k: nat, i: nat, d: Decision)
    requires Digests(c) && Run(c, states, log) && k < i < |log|
    requires log[k].step == Decide(d) && Approves(c, states[k], d)
    requires Undisturbed(log, k, i, c.fingerprint(states[k].pending[d.node].request.pubkey).value, d.node)
    requires d.duration == 0 || log[i].now < log[k].now + d.duration
    ensures var s := states[i];
            StatusLookup(s, d.node, log[i].now).status == Approved <==>
            d.node !in s.pending && (d.node in s.decisions ==> s.decisions[d.node].response.status == Approved)
  {
    var fp := c.fingerprint(states[k].pending[d.node].request.pubkey).value;
    ApprovalLasts(c, states, log, k, i, d, fp);
    var g :| g in states[i].grants && g.fingerprint == fp && g.nodeId == d.node
             && g.expires == ExpiryOf(log[k].now, d.duration);
    LiveMembers(states[i].grants, log[i].now, g);
  }

  /** What the step remembers, and for which node. */
  function Records(s: State, ev: Event): Option<(string, StatusResponse)> {
    match ev.step
    case Decide(d) =>
      if d.node in s.pending && d.verdict != "approve" then Some((d.node, StatusResponse(Denied, None))) else None
    case Notified(node, resp) => Some((node, resp))
    case _ => None
  }

  /** The step can make the daemon forget outcome `o` of node `n`: a restart, a
      different outcome for the node, or an outcome for a new node when the memory
      is full and `n` is among its oldest. */
  ghost predicate MayForget(s: State, ev: Event, n: string, o: Remembered) {
    || ev.step.Restart?
    || (Records(s, ev).Some?
        && var (node, resp) := Records(s, ev).value;
           if node == n then Remembered(resp, ev.now) != o
           else node !in s.decisions && |s.decisions| >= 256 && forall x :: x in s.decisions ==> o.at <= s.decisions[x].at)
  }

  lemma StepDecisions(c: Crypto, s: State, ev: Event, s': State)
    requires Digests(c) && Next(c, s, ev, s')
    ensures if ev.step.Restart? then s'.decisions == map[]
            else if Records(s, ev).None? then s'.decisions == s.decisions
            else Remembers(s.decisions, Records(s, ev).value.0, Records(s, ev).value.1, ev.now, s'.decisions)
  {
  }

  lemma RecallsUnlessForgotten(c: Crypto, s: State, ev: Event, s': State, n: string, o: Remembered)
    requires Digests(c) && Next(c, s, ev, s') && Recalls(s, n, o) && !MayForget(s, ev, n, o)
    ensures Recalls(s', n, o)
  {
    StepDecisions(c, s, ev, s');
  }

  /** The condition is exact: where a step can forget, some run of it does. */
  lemma CanForget(c: Crypto, s: State, ev: Event, n: string, o: Remembered) returns (s': State)
    requires Digests(c) && Recalls(s, n, o) && MayForget(s, ev, n, o)
    ensures Next(c, s, ev, s') && !Recalls(s', n, o)
  {
    s' := CanStep(c, s, ev);
    StepDecisions(c, s, ev, s');
    if !ev.step.Restart? && Records(s, ev).value.0 != n {
      var (node, resp) := Records(s, ev).value;
      s' := s'.(decisions := (s.decisions - {n})[node := Remembered(resp, ev.now)]);
    }
  }

  /** An outcome is remembered over every run until a step can forget it. */
  lemma {:induction false} OutcomeIsRecalled(
      c: Crypto, states: seq<State>, log: seq<Event>, j: nat, i: nat, n: string, o: Remembered)
    requires Digests(c) && Follows(c, states, log) && j <= i < |states| && Recalls(states[j], n, o)
    requires forall m :: j <= m < i ==> !MayForget(states[m], log[m], n, o)
    ensures Recalls(states[i], n, o)
  {
    if j < i {
      OutcomeIsRecalled(c, states, log, j, i - 1, n, o);
      assert StepAt(c, states, log, i - 1);
      RecallsUnlessForgotten(c, states[i - 1], log[i - 1], states[i], n, o);
    }
  }

  /** So an earlier denial hides an approval: as long as no step can forget it,
      polls say "denied" (or "pending" when the node asks once more). */
  lemma DenialOutlivesApproval(c: Crypto, states: seq<State>, log: seq<Event>, j: nat, i: nat, n: string, at: nat, now: nat)
    requires Digests(c) && Follows(c, states, log) && j <= i < |states|
    requires Recalls(states[j], n, Remembered(StatusResponse(Denied, None), at))
    requires forall m :: j <= m < i ==> !MayForget(states[m], log[m], n, Remembered(StatusResponse(Denied, None), at))
    ensures StatusLookup(states[i], n, now).status == if n in states[i].pending then Pending else Denied
  {
    OutcomeIsRecalled(c, states, log, j, i, n, Remembered(StatusResponse(Denied, None), at));
  }

  /** The shortest such run: asked, denied, asked again, approved, and yet denied
      to the one who polls. */
  lemma DeniedThenApproved(c: Crypto, req: PairRequest, t: nat) returns (states: seq<State>, log: seq<Event>)
    requires Digests(c) && Genuine(c, req)
    ensures Run(c, states, log) && |log| == 4 && log[3] == Event(t, Decide(Approval(req.nodeId, 0)))
    ensures Approves(c, states[3], Approval(req.nodeId, 0)) && HasLiveGrant(states[4], c.fingerprint(req.pubkey).value, t)
    ensures StatusLookup(states[4], req.nodeId, t).status == Denied
  {
    var queued := AfterPair(c, INITIAL, req, t);
    assert Pruned(map[], t) == map[];
    assert queued.pending == map[req.nodeId := PendingEntry(req, t)];
    var denied := INITIAL.(decisions := map[req.nodeId := Remembered(StatusResponse(Denied, None), t)]);
    var deny := Decision(req.nodeId, "deny", 0, None, None);
    assert Run(c, [INITIAL], []);
    RunGrows(c, [INITIAL], [], Event(t, Pair(req)), queued);
    assert queued.pending - {req.nodeId} == map[];
    RunGrows(c, [INITIAL] + [queued], [] + [Event(t, Pair(req))], Event(t, Decide(deny)), denied);
    states := [INITIAL] + [queued] + [denied];
    log := [] + [Event(t, Pair(req))] + [Event(t, Decide(deny))];
    RunGrowsByApproval(c, states, log, req, 0, t);
    var g := NewGrant(c.fingerprint(req.pubkey).value, req, Approval(req.nodeId, 0), t);
    var again := AfterPair(c, denied, req, t);
    assert again.pending == map[req.nodeId := PendingEntry(req, t)];
    assert Upserted([], g) == [g];
    states := states + [again, denied.(grants := [g])];
    log := log + [Event(t, Pair(req)), Event(t, Decide(Approval(req.nodeId, 0)))];
  }

  /** Entry `e` of node `n` is waiting for a decision. */
  predicate Waits(s: State, n: string, e: PendingEntry) {
    n in s.pending && s.pending[n] == e
  }

  /** The step leaves the entry waiting: it is no restart, does not decide on the node, does not
      replace the entry, and does not queue another request once the entry is ten
      minutes old. */
  predicate Spares(c: Crypto, s: State, ev: Event, n: string, e: PendingEntry)
    requires Digests(c)
  {
    && !ev.step.Restart?
    && (ev.step.Decide? ==> ev.step.decision.node != n)
    && (Queues(c, s, ev) ==>
          if ev.step.req.nodeId == n then PendingEntry(ev.step.req, ev.now) == e
          else Young(e, ev.now))
  }

  /** Less than ten minutes old (and not from the very first second of the clock). */
  predicate Young(e: PendingEntry, now: nat) {
    e.received > 0 && now < e.received + 600
  }

  lemma QueueingSparesIff(s: State, req: PairRequest, now: nat, n: string, e: PendingEntry)
    requires Waits(s, n, e) && |s.pending| <= MAX_PENDING
    ensures var after := Queued(s.pending, req, now);
            n in after && after[n] == e <==>
            if req.nodeId == n then PendingEntry(req, now) == e else Young(e, now)
  {
    var kept := Pruned(s.pending, now);
    if req.nodeId == n && n !in kept {
      assert kept.Keys <= s.pending.Keys - {n};
      SubsetSize(kept.Keys, s.pending.Keys - {n});
    }
  }

  lemma WaitsOnIff(c: Crypto, s: State, ev: Event, pending: map<string, PendingEntry>, n: string, e: PendingEntry)
    requires Digests(c) && |s.pending| <= MAX_PENDING && Waits(s, n, e) && pending == PendingAfter(c, s, ev)
    ensures n in pending && pending[n] == e <==> Spares(c, s, ev, n, e)
  {
    if Queues(c, s, ev) { QueueingSparesIff(s, ev.step.req, ev.now, n, e); }
  }

  ghost predicate WaitsThroughout(states: seq<State>, j: nat, i: nat, n: string, e: PendingEntry)
    requires i < |states|
  {
    forall m :: j <= m <= i ==> Waits(states[m], n, e)
  }

  ghost predicate AllSpare(c: Crypto, states: seq<State>, log: seq<Event>, j: nat, i: nat, n: string, e: PendingEntry)
    requires Digests(c) && i <= |log| < |states|
  {
    forall m :: j <= m < i ==> Spares(c, states[m], log[m], n, e)
  }

  lemma QueueIsBounded(c: Crypto, states: seq<State>, log: seq<Event>, i: nat)
    requires Digests(c) && Run(c, states, log) && i < |states|
    ensures |states[i].pending| <= MAX_PENDING
  {
    ReachableStatesAreSafe(c, states, log, i);
  }

  lemma WaitsOneMore(c: Crypto, states: seq<State>, log: seq<Event>, j: nat, i: nat, n: string, e: PendingEntry)
    requires Digests(c) && Run(c, states, log) && j <= i < |log| && WaitsThroughout(states, j, i, n, e)
    ensures WaitsThroughout(states, j, i + 1, n, e) <==> Spares(c, states[i], log[i], n, e)
  {
    QueueIsBounded(c, states, log, i);
    StepPending(c, states, log, i);
    assert Waits(states[i], n, e);
    WaitsOnIff(c, states[i], log[i], states[i + 1].pending, n, e);
    assert WaitsThroughout(states, j, i + 1, n, e) <==> Waits(states[i + 1], n, e);
  }

  lemma SparesOneMore(c: Crypto, states: seq<State>, log: seq<Event>, j: nat, i: nat, n: string, e: PendingEntry)
    requires Digests(c) && j <= i < |log| < |states|
    ensures AllSpare(c, states, log, j, i + 1, n, e) <==>
            AllSpare(c, states, log, j, i, n, e) && Spares(c, states[i], log[i], n, e)
  {
  }

  /** The ten-minute limit over whole runs: a waiting request is still waiting,
      and was all along, iff every step in between spared it. In particular no
      step but another pair request ever makes it expire. */
  lemma {:induction false} WaitingIsExact(
      c: Crypto, states: seq<State>, log: seq<Event>, j: nat, i: nat, n: string, e: PendingEntry)
    requires Digests(c) && Run(c, states, log) && j <= i < |states| && Waits(states[j], n, e)
    ensures WaitsThroughout(states, j, i, n, e) <==> AllSpare(c, states, log, j, i, n, e)
    decreases i - j
  {
    if j < i {
      WaitingIsExact(c, states, log, j, i - 1, n, e);
      SparesOneMore(c, states, log, j, i - 1, n, e);
      if WaitsThroughout(states, j, i - 1, n, e) { WaitsOneMore(c, states, log, j, i - 1, n, e); }
    }
  }

  /** A spared request is approved whatever its age, and the grant is its own. */
  lemma SparedRequestIsApproved(
      c: Crypto, states: seq<State>, log: seq<Event>, j: nat, i: nat, e: PendingEntry, d: Decision)
    requires Digests(c) && Run(c, states, log) && j <= i < |log| && Waits(states[j], d.node, e)
    requires AllSpare(c, states, log, j, i, d.node, e) && log[i].step == Decide(d)
    ensures Approves(c, states[i], d) <==> d.verdict == "approve" && Permits(d)
    ensures Approves(c, states[i], d) ==>
            c.fingerprint(e.request.pubkey).Some?
            && NewGrant(c.fingerprint(e.request.pubkey).value, e.request, d, log[i].now) in states[i + 1].grants
  {
    WaitingIsExact(c, states, log, j, i, d.node, e);
    assert Waits(states[i], d.node, e);
    ReachableStatesAreSafe(c, states, log, i);
    assert PendingOk(c, d.node, e);
    if Approves(c, states[i], d) {
      ApprovalStores(c, states, log, i, d, c.fingerprint(e.request.pubkey).value);
    }
  }

  /** The shortest such run: a request approved `age` seconds after it came in. */
  lemma ApprovedAtAnyAge(c: Crypto, req: PairRequest, d: Decision, received: nat, age: nat)
    returns (states: seq<State>, log: seq<Event>)
    requires Digests(c) && Genuine(c, req) && d.node == req.nodeId && d.verdict == "approve" && Permits(d)
    ensures Run(c, states, log) && log == [Event(received, Pair(req)), Event(received + age, Decide(d))]
    ensures Approves(c, states[1], d)
  {
    log := [Event(received, Pair(req)), Event(received + age, Decide(d))];
    var s1 := AfterPair(c, INITIAL, req, received);
    assert Pruned(INITIAL.pending, received) == map[];
    var g := NewGrant(c.fingerprint(req.pubkey).value, req, d, received + age);
    var s2 := s1.(pending := s1.pending - {d.node}, grants := Upserted([], g));
    states := [INITIAL, s1, s2];
    assert StepAt(c, states, log, 0) && StepAt(c, states, log, 1);
  }

  // ---- Announcements ----

  /** The step takes the node off the queue: a restart, a decision on it, or another
      node's request once the waiting one is ten minutes old. */
  predicate Leaves(c: Crypto, s: State, ev: Event, n: string)
    requires Digests(c)
  {
    && n in s.pending
    && (ev.step.Restart?
        || (ev.step.Decide? && ev.step.decision.node == n)
        || (Queues(c, s, ev) && ev.step.req.nodeId != n && !Young(s.pending[n], ev.now)))
  }

  predicate QueuesFor(c: Crypto, s: State, ev: Event, n: string)
    requires Digests(c)
  {
    Queues(c, s, ev) && ev.step.req.nodeId == n
  }

  /** A queue within its bound always has room for a node that is on it. */
  lemma RefreshIsAdmitted(s: State, req: PairRequest, now: nat)
    requires |s.pending| <= MAX_PENDING && req.nodeId in s.pending
    ensures req.nodeId in Queued(s.pending, req, now)
  {
    var n, kept := req.nodeId, Pruned(s.pending, now);
    if n !in kept {
      assert kept.Keys <= s.pending.Keys - {n};
      SubsetSize(kept.Keys, s.pending.Keys - {n});
    }
  }

  lemma OnQueueIff(c: Crypto, s: State, ev: Event, n: string)
    requires Digests(c) && |s.pending| <= MAX_PENDING && !(n !in s.pending && QueuesFor(c, s, ev, n))
    ensures n in PendingAfter(c, s, ev) <==> n in s.pending && !Leaves(c, s, ev, n)
  {
    if QueuesFor(c, s, ev, n) { RefreshIsAdmitted(s, ev.step.req, ev.now); }
  }

  ghost predicate StaysOn(c: Crypto, states: seq<State>, log: seq<Event>, j: nat, i: nat, n: string)
    requires Digests(c) && i <= |log| < |states|
  {
    forall m :: j <= m < i ==> !Leaves(c, states[m], log[m], n)
  }

  lemma OnQueueOneMore(c: Crypto, states: seq<State>, log: seq<Event>, i: nat, n: string)
    requires Digests(c) && Run(c, states, log) && i < |log| && !QueuesFor(c, states[i], log[i], n)
    ensures n in states[i + 1].pending <==> n in states[i].pending && !Leaves(c, states[i], log[i], n)
  {
    QueueIsBounded(c, states, log, i);
    StepPending(c, states, log, i);
    OnQueueIff(c, states[i], log[i], n);
  }

  lemma StaysOneMore(c: Crypto, states: seq<State>, log: seq<Event>, j: nat, i: nat, n: string)
    requires Digests(c) && j <= i < |log| < |states|
    ensures StaysOn(c, states, log, j, i + 1, n) <==>
            StaysOn(c, states, log, j, i, n) && !Leaves(c, states[i], log[i], n)
  {
  }

  lemma {:induction false} StillOnQueueIff(c: Crypto, states: seq<State>, log: seq<Event>, j: nat, i: nat, n: string)
    requires Digests(c) && Run(c, states, log) && j <= i < |states| && n in states[j].pending
    requires forall m :: j <= m < i ==> !QueuesFor(c, states[m], log[m], n)
    ensures n in states[i].pending <==> StaysOn(c, states, log, j, i, n)
    decreases i - j
  {
    if j < i {
      StillOnQueueIff(c, states, log, j, i - 1, n);
      OnQueueOneMore(c, states, log, i - 1, n);
      StaysOneMore(c, states, log, j, i - 1, n);
    }
  }

  /** Of two successive requests from one node the second is announced iff the
      first one left the queue in between and there is room: refreshing a waiting
      request stays silent. */
  lemma AnnouncedAgainIff(c: Crypto, states: seq<State>, log: seq<Event>, j: nat, i: nat, n: string)
    requires Digests(c) && Run(c, states, log) && j < i < |log|
    requires QueuesFor(c, states[j], log[j], n) && n in states[j + 1].pending && QueuesFor(c, states[i], log[i], n)
    requires forall m :: j < m < i ==> !QueuesFor(c, states[m], log[m], n)
    ensures Announces(c, states[i], log[i]) <==>
            !StaysOn(c, states, log, j + 1, i, n) && !QueueFull(Pruned(states[i].pending, log[i].now), n)
  {
    StillOnQueueIff(c, states, log, j + 1, i, n);
  }

  ghost predicate Usable(gs: seq<Grant>) {
    forall g :: g in gs ==> AllowsSomething(g)
  }

  /** The update strips the grant's last permission (and is then answered with an error). */
  predicate Strips(s: State, step: Step) {
    step.Update? && UpdateReplyTo(s, step.update) == NothingAllowed
  }

  lemma {:induction false} UpdatedMembers(gs: seq<Grant>, u: GrantUpdate)
    ensures forall g :: g in Updated(gs, u) && g !in gs ==>
              FindByFingerprint(gs, u.fingerprint).Some? && g == UpdateOne(FindByFingerprint(gs, u.fingerprint).value, u)
    ensures FindByFingerprint(gs, u.fingerprint).Some? ==>
              UpdateOne(FindByFingerprint(gs, u.fingerprint).value, u) in Updated(gs, u)
  {
    if gs != [] { UpdatedMembers(gs[1..], u); }
  }

  lemma KeptPermissions(gs: seq<Grant>, gs': seq<Grant>)
    requires |gs'| == |gs| && Usable(gs)
    requires forall i :: 0 <= i < |gs| && AllowsSomething(gs[i]) ==> AllowsSomething(gs'[i])
    ensures Usable(gs')
  {
    forall g | g in gs' ensures AllowsSomething(g) {
      var n :| 0 <= n < |gs'| && gs'[n] == g;
      assert gs[n] in gs;
    }
  }

  /** "Every grant allows files or printing" survives a step exactly unless the
      step is a rejected update: the rejection comes after the change. */
  lemma UsableIsKeptIff(c: Crypto, s: State, ev: Event, s': State)
    requires Digests(c) && Next(c, s, ev, s') && Usable(s.grants)
    ensures Usable(s'.grants) <==> !Strips(s, ev.step)
  {
    match ev.step
    case Update(u) => UpdatedMembers(s.grants, u);
    case Rescope(_, _, _) => KeptPermissions(s.grants, s'.grants);
    case Restart(_) => KeptPermissions(s.grants, s'.grants);
    case Revoke(fp) => forall g ensures g in s'.grants ==> g in s.grants { WithoutMembers(s.grants, fp, g); }
    case Sweep => forall g ensures g in s'.grants ==> g in s.grants { LiveMembers(s.grants, ev.now, g); }
    case Decide(d) =>
      if Approves(c, s, d) {
        var fp := c.fingerprint(s.pending[d.node].request.pubkey).value;
        forall g ensures g in Without(s.grants, fp) ==> g in s.grants { WithoutMembers(s.grants, fp, g); }
      }
    case _ =>
  }
}
