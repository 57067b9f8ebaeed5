/** Lazy sweeping is invisible: dropping expired grants now, later or never
    changes no authentication. */
module AccessSweep {
  import opened Options
  import opened Canonical
  import opened Grants
  import opened ShareTree
  import opened ShareItem
  import opened Access
  import opened AccessSafety
  import opened AccessProvenance
  import opened AccessRuns

  // ---- Expiry commutes with every change to the store ----

  lemma {:induction false} LiveTwice(gs: seq<Grant>, t: nat, t': nat)
    requires t <= t'
    ensures LiveGrants(LiveGrants(gs, t), t') == LiveGrants(gs, t')
  {
    if gs != [] {
      LiveTwice(gs[1..], t, t');
      assert ([gs[0]] + LiveGrants(gs[1..], t))[1..] == LiveGrants(gs[1..], t);
    }
  }

  lemma {:induction false} LiveWithout(gs: seq<Grant>, fp: string, t: nat)
    ensures LiveGrants(Without(gs, fp), t) == Without(LiveGrants(gs, t), fp)
  {
    if gs != [] {
      LiveWithout(gs[1..], fp, t);
      assert ([gs[0]] + Without(gs[1..], fp))[1..] == Without(gs[1..], fp);
      assert ([gs[0]] + LiveGrants(gs[1..], t))[1..] == LiveGrants(gs[1..], t);
    }
  }

  lemma {:induction false} LiveAppend(gs: seq<Grant>, g: Grant, t: nat)
    ensures LiveGrants(gs + [g], t) == LiveGrants(gs, t) + (if Live(g, t) then [g] else [])
  {
    if gs == [] {
      assert gs + [g] == [g] && [g][1..] == [];
    } else {
      LiveAppend(gs[1..], g, t);
      assert (gs + [g])[1..] == gs[1..] + [g];
    }
  }

  lemma {:induction false} LiveUpdated(gs: seq<Grant>, u: GrantUpdate, t: nat)
    requires UniqueFingerprints(gs)
    ensures LiveGrants(Updated(gs, u), t) == Updated(LiveGrants(gs, t), u)
  {
    if gs != [] {
      var h, rest := gs[0], gs[1..];
      var live := LiveGrants(rest, t);
      assert ([h] + live)[1..] == live;
      if h.fingerprint == u.fingerprint {
        assert Updated(gs, u)[1..] == rest;
        forall g | g in live ensures g.fingerprint != u.fingerprint { LiveMembers(rest, t, g); }
        UpdateOfAbsent(live, u);
      } else {
        LiveUpdated(rest, u, t);
        assert Updated(gs, u)[1..] == Updated(rest, u);
      }
    }
  }

  lemma {:induction false} LiveRescoped(gs: seq<Grant>, path: string, selected: seq<string>, list: Lister, t: nat)
    requires BuildsPaths(list)
    ensures LiveGrants(RescopedAll(gs, path, selected, list), t) == RescopedAll(LiveGrants(gs, t), path, selected, list)
  {
    if gs != [] {
      LiveRescoped(gs[1..], path, selected, list, t);
      assert RescopedAll(gs, path, selected, list)[1..] == RescopedAll(gs[1..], path, selected, list);
      assert ([gs[0]] + LiveGrants(gs[1..], t))[1..] == LiveGrants(gs[1..], t);
    }
  }

  lemma {:induction false} LiveReloaded(gs: seq<Grant>, file: map<string, Permissions>, t: nat)
    ensures LiveGrants(Reloaded(gs, file), t) == Reloaded(LiveGrants(gs, t), file)
  {
    if gs != [] {
      LiveReloaded(gs[1..], file, t);
      assert Reloaded(gs, file)[1..] == Reloaded(gs[1..], file);
      assert ([gs[0]] + LiveGrants(gs[1..], t))[1..] == LiveGrants(gs[1..], t);
    }
  }

  lemma {:induction false} LiveFind(gs: seq<Grant>, fp: string, t: nat)
    requires UniqueFingerprints(gs)
    ensures var g := FindByFingerprint(gs, fp);
            FindByFingerprint(LiveGrants(gs, t), fp) == if g.Some? && Live(g.value, t) then g else None
  {
    if gs != [] {
      var h, rest := gs[0], gs[1..];
      LiveFind(rest, fp, t);
      assert ([h] + LiveGrants(rest, t))[1..] == LiveGrants(rest, t);
      assert FindByFingerprint(rest, fp).Some? ==> h.fingerprint != fp;
    }
  }

  // ---- Two stores that differ only in dead grants ----

  ghost predicate Similar(s: State, s': State, t: nat) {
    LiveGrants(s.grants, t) == LiveGrants(s'.grants, t) && s.pending == s'.pending && s.seen == s'.seen
  }

  lemma SimilarLater(s: State, s': State, t: nat, t': nat)
    requires Similar(s, s', t) && t <= t'
    ensures Similar(s, s', t')
  {
    LiveTwice(s.grants, t, t');
    LiveTwice(s'.grants, t, t');
  }

  lemma LiveGrantIsSimilar(c: Crypto, s: State, s': State, fp: string, now: nat)
    requires Digests(c) && Inv(c, s) && Inv(c, s') && Similar(s, s', now)
    ensures HasLiveGrant(s, fp, now) == HasLiveGrant(s', fp, now)
  {
    LiveFind(s.grants, fp, now);
    LiveFind(s'.grants, fp, now);
  }

  lemma PairIsSimilar(c: Crypto, s: State, s': State, req: PairRequest, now: nat)
    requires Digests(c) && Inv(c, s) && Inv(c, s') && Similar(s, s', now)
    ensures Similar(AfterPair(c, s, req, now), AfterPair(c, s', req, now), now)
  {
    if Genuine(c, req) { LiveGrantIsSimilar(c, s, s', c.fingerprint(req.pubkey).value, now); }
  }

  lemma DecideIsSimilar(c: Crypto, s: State, s': State, d: Decision, now: nat, n: State, n': State)
    requires Digests(c) && Similar(s, s', now)
    requires DecideStep(c, s, d, now, n) && DecideStep(c, s', d, now, n')
    ensures Similar(n, n', now)
  {
    if Approves(c, s, d) {
      var req := s.pending[d.node].request;
      var g := NewGrant(c.fingerprint(req.pubkey).value, req, d, now);
      LiveWithout(s.grants, g.fingerprint, now);
      LiveWithout(s'.grants, g.fingerprint, now);
      LiveAppend(Without(s.grants, g.fingerprint), g, now);
      LiveAppend(Without(s'.grants, g.fingerprint), g, now);
    }
  }

  lemma StoreIsSimilar(c: Crypto, s: State, s': State, ev: Event, n: State, n': State)
    requires Digests(c) && Similar(s, s', ev.now)
    requires UniqueFingerprints(s.grants) && UniqueFingerprints(s'.grants)
    requires ev.step.Revoke? || ev.step.Update? || ev.step.Rescope? || ev.step.Restart?
    requires Next(c, s, ev, n) && Next(c, s', ev, n')
    ensures Similar(n, n', ev.now)
  {
    if ev.step.Revoke? {
      LiveWithout(s.grants, ev.step.fingerprint, ev.now);
      LiveWithout(s'.grants, ev.step.fingerprint, ev.now);
    } else if ev.step.Update? {
      LiveUpdated(s.grants, ev.step.update, ev.now);
      LiveUpdated(s'.grants, ev.step.update, ev.now);
    } else if ev.step.Restart? {
      LiveReloaded(s.grants, ev.step.file, ev.now);
      LiveReloaded(s'.grants, ev.step.file, ev.now);
    } else {
      var list := ListTree(ev.step.listings);
      LiveRescoped(s.grants, ev.step.path, ev.step.selected, list, ev.now);
      LiveRescoped(s'.grants, ev.step.path, ev.step.selected, list, ev.now);
    }
  }

  lemma SeeingIsSimilar(c: Crypto, s: State, s': State, r: SignedRequest, now: nat)
    requires Similar(s, s', now)
    ensures Similar(AfterSeeing(c, s, r, now), AfterSeeing(c, s', r, now), now)
  {
  }

  lemma StepIsSimilar(c: Crypto, s: State, s': State, ev: Event, n: State, n': State)
    requires Digests(c) && Inv(c, s) && Inv(c, s') && Similar(s, s', ev.now) && !ev.step.Sweep?
    requires Next(c, s, ev, n) && Next(c, s', ev, n')
    ensures Similar(n, n', ev.now)
  {
    match ev.step
    case Pair(req) => PairIsSimilar(c, s, s', req, ev.now);
    case Decide(d) => DecideIsSimilar(c, s, s', d, ev.now, n, n');
    case Revoke(_) => StoreIsSimilar(c, s, s', ev, n, n');
    case Update(_) => StoreIsSimilar(c, s, s', ev, n, n');
    case Rescope(_, _, _) => StoreIsSimilar(c, s, s', ev, n, n');
    case Restart(_) => StoreIsSimilar(c, s, s', ev, n, n');
    case Request(r) => SeeingIsSimilar(c, s, s', r, ev.now);
    case Poll(r, _) => SeeingIsSimilar(c, s, s', r, ev.now);
    case Notified(_, _) =>
  }

  /** What an authentication yields: the grant, or nothing. */
  function Outcome(c: Crypto, s: State, r: SignedRequest, now: nat): Option<Grant> {
    var a := RequireAuth(c, s, r, now);
    if a.Ok? then Some(a.value) else None
  }

  /** The verdict on a verified caller, given the grant found for its node. */
  function Judged(c: Crypto, v: Caller, g: Option<Grant>, now: nat): Option<Grant> {
    if g.Some? && Live(g.value, now) && c.fingerprint(v.pub) == Some(g.value.fingerprint) then g else None
  }

  lemma OutcomeIs(c: Crypto, s: State, r: SignedRequest, now: nat)
    ensures var v := VerifySigned(c, r, now);
            Outcome(c, s, r, now) ==
            if v.Ok? && NotReplayed(s.seen, v.value.sig, now) then Judged(c, v.value, FindByNode(s.grants, v.value.node), now)
            else None
  {
  }

  /** A node's live grant is found in the swept store exactly if the full store
      finds it. */
  lemma LiveNode(c: Crypto, s: State, node: string, now: nat)
    requires Digests(c) && DistinctNodeIds(c) && Inv(c, s)
    ensures var g := FindByNode(s.grants, node);
            FindByNode(LiveGrants(s.grants, now), node) == if g.Some? && Live(g.value, now) then g else None
  {
    var swept := s.(grants := LiveGrants(s.grants, now));
    StepKeepsInv(c, s, Event(now, Sweep), swept);
    var a, b := FindByNode(s.grants, node), FindByNode(swept.grants, node);
    if a.Some? && Live(a.value, now) {
      LiveMembers(s.grants, now, a.value);
      NodeFindsGrant(c, swept, a.value);
    } else if b.Some? {
      LiveMembers(s.grants, now, b.value);
      NodeFindsGrant(c, s, b.value);
      assert false;
    }
  }

  /** With distinct node ids only live grants matter. */
  lemma OutcomeSeesLiveGrants(c: Crypto, s: State, r: SignedRequest, now: nat)
    requires Digests(c) && DistinctNodeIds(c) && Inv(c, s)
    ensures Outcome(c, s, r, now) == Outcome(c, s.(grants := LiveGrants(s.grants, now)), r, now)
  {
    var v := VerifySigned(c, r, now);
    OutcomeIs(c, s, r, now);
    OutcomeIs(c, s.(grants := LiveGrants(s.grants, now)), r, now);
    if v.Ok? { LiveNode(c, s, v.value.node, now); }
  }

  lemma SimilarOutcome(c: Crypto, s: State, s': State, r: SignedRequest, now: nat)
    requires Digests(c) && DistinctNodeIds(c) && Inv(c, s) && Inv(c, s') && Similar(s, s', now)
    ensures Outcome(c, s, r, now) == Outcome(c, s', r, now)
  {
    OutcomeSeesLiveGrants(c, s, r, now);
    OutcomeSeesLiveGrants(c, s', r, now);
    OutcomeIs(c, s.(grants := LiveGrants(s.grants, now)), r, now);
    OutcomeIs(c, s'.(grants := LiveGrants(s'.grants, now)), r, now);
  }

  // ---- Whole runs ----

  /** The outcomes of a run's authentications, in order. */
  ghost function AuthLog(c: Crypto, states: seq<State>, log: seq<Event>): seq<Option<Grant>>
    requires |states| == |log| + 1
  {
    if log == [] then []
    else
      var rest := AuthLog(c, states[1..], log[1..]);
      if log[0].step.Request? then [Outcome(c, states[0], log[0].step.signed, log[0].now)] + rest else rest
  }

  function WithoutSweeps(log: seq<Event>): seq<Event> {
    if log == [] then []
    else if log[0].step.Sweep? then WithoutSweeps(log[1..])
    else [log[0]] + WithoutSweeps(log[1..])
  }

  lemma FollowsTail(c: Crypto, states: seq<State>, log: seq<Event>)
    requires Digests(c) && Follows(c, states, log) && log != []
    ensures Follows(c, states[1..], log[1..]) && Next(c, states[0], log[0], states[1])
  {
    assert StepAt(c, states, log, 0);
    forall i: nat | i < |log[1..]| ensures StepAt(c, states[1..], log[1..], i) {
      assert StepAt(c, states, log, i + 1);
    }
  }

  /** The same step on both sides. */
  lemma StepTogether(c: Crypto, s: State, s': State, ev: Event, n: State, n': State)
    requires Digests(c) && DistinctNodeIds(c) && Inv(c, s) && Inv(c, s') && Similar(s, s', ev.now) && !ev.step.Sweep?
    requires Next(c, s, ev, n) && Next(c, s', ev, n')
    ensures Inv(c, n) && Inv(c, n') && Similar(n, n', ev.now)
    ensures ev.step.Request? ==> Outcome(c, s, ev.step.signed, ev.now) == Outcome(c, s', ev.step.signed, ev.now)
  {
    StepKeepsInv(c, s, ev, n);
    StepKeepsInv(c, s', ev, n');
    StepIsSimilar(c, s, s', ev, n, n');
    if ev.step.Request? { SimilarOutcome(c, s, s', ev.step.signed, ev.now); }
  }

  /** A sweep on one side only. */
  lemma SweepAlone(c: Crypto, s: State, s': State, now: nat, n: State)
    requires Digests(c) && Inv(c, s) && Similar(s, s', now) && Next(c, s, Event(now, Sweep), n)
    ensures Inv(c, n) && Similar(n, s', now)
  {
    StepKeepsInv(c, s, Event(now, Sweep), n);
    LiveTwice(s.grants, now, now);
  }

  lemma {:induction false} SweepsAreInvisibleFrom(
      c: Crypto, states: seq<State>, log: seq<Event>, states': seq<State>, t: nat)
    requires Digests(c) && DistinctNodeIds(c)
    requires Follows(c, states, log) && Follows(c, states', WithoutSweeps(log))
    requires Inv(c, states[0]) && Inv(c, states'[0]) && Similar(states[0], states'[0], t)
    requires log != [] ==> t <= log[0].now
    ensures AuthLog(c, states, log) == AuthLog(c, states', WithoutSweeps(log))
  {
    if log != [] {
      var ev, s, s' := log[0], states[0], states'[0];
      var rest, rest' := log[1..], WithoutSweeps(log);
      FollowsTail(c, states, log);
      SimilarLater(s, s', t, ev.now);
      assert rest != [] ==> ev.now <= rest[0].now;
      if ev.step.Sweep? {
        SweepAlone(c, s, s', ev.now, states[1]);
        assert rest' == WithoutSweeps(rest);
        SweepsAreInvisibleFrom(c, states[1..], rest, states', ev.now);
      } else {
        assert rest'[1..] == WithoutSweeps(rest) && rest'[0] == ev;
        FollowsTail(c, states', rest');
        StepTogether(c, s, s', ev, states[1], states'[1]);
        SweepsAreInvisibleFrom(c, states[1..], rest, states'[1..], ev.now);
      }
    }
  }

  /** Take any run and leave out its sweeps: every authentication ends the same
      way, with the same grant. */
  lemma SweepsAreInvisible(c: Crypto, states: seq<State>, log: seq<Event>, states': seq<State>)
    requires Digests(c) && DistinctNodeIds(c)
    requires Run(c, states, log) && Run(c, states', WithoutSweeps(log))
    ensures AuthLog(c, states, log) == AuthLog(c, states', WithoutSweeps(log))
  {
    SweepsAreInvisibleFrom(c, states, log, states', 0);
  }

  lemma {:induction false} KeptSteps(log: seq<Event>, ev: Event)
    requires ev in WithoutSweeps(log)
    ensures ev in log
  {
    if log[0].step.Sweep? || ev != log[0] { KeptSteps(log[1..], ev); }
  }

  lemma {:induction false} StillOrdered(log: seq<Event>)
    requires NonDecreasing(log)
    ensures NonDecreasing(WithoutSweeps(log))
  {
    if log != [] {
      StillOrdered(log[1..]);
      var rest := WithoutSweeps(log[1..]);
      forall i | 0 <= i < |rest| ensures log[0].now <= rest[i].now {
        KeptSteps(log[1..], rest[i]);
        var k :| 0 <= k < |log[1..]| && log[1..][k] == rest[i];
        assert log[k + 1] == rest[i];
      }
    }
  }

  /** The run without the sweeps exists, whatever the run with them was. */
  lemma SweepsCanBeLeftOut(c: Crypto, states: seq<State>, log: seq<Event>) returns (unswept: seq<State>)
    requires Digests(c) && DistinctNodeIds(c) && Run(c, states, log)
    ensures Run(c, unswept, WithoutSweeps(log))
    ensures AuthLog(c, states, log) == AuthLog(c, unswept, WithoutSweeps(log))
  {
    StillOrdered(log);
    forall ev | ev in WithoutSweeps(log) ensures Possible(ev) {
      KeptSteps(log, ev);
      var i :| 0 <= i < |log| && log[i] == ev;
      assert StepAt(c, states, log, i);
    }
    unswept := EveryLogRuns(c, WithoutSweeps(log));
    SweepsAreInvisible(c, states, log, unswept);
  }

  // ---- Shared node ids ----

  /** With a dead grant listed first, a live one for the same node id is found
      only after a sweep. */
  lemma DeadGrantHidesLive(c: Crypto, s: State, r: SignedRequest, now: nat, dead: Grant, alive: Grant, v: Caller)
    requires s.grants == [dead, alive] && dead.nodeId == alive.nodeId == v.node
    requires !Live(dead, now) && Live(alive, now)
    requires VerifySigned(c, r, now) == Ok(v) && NotReplayed(s.seen, v.sig, now)
    requires c.fingerprint(v.pub) == Some(alive.fingerprint)
    ensures LiveGrants(s.grants, now) == [alive]
    ensures Outcome(c, s, r, now) == None
    ensures Outcome(c, s.(grants := [alive]), r, now) == Some(alive)
  {
    assert s.grants[1..] == [alive];
    assert [alive][1..] == [];
    assert LiveGrants([alive], now) == [alive] + LiveGrants([], now);
  }

  lemma {:induction false} SweepsDropOut(before: seq<Event>, after: seq<Event>, now: nat)
    requires forall ev :: ev in before + after ==> !ev.step.Sweep?
    ensures WithoutSweeps(before + [Event(now, Sweep)] + after) == before + after
  {
    var log := before + [Event(now, Sweep)] + after;
    if before == [] {
      assert log[1..] == after && before + after == after;
      NoSweeps(after);
    } else {
      assert log[1..] == before[1..] + [Event(now, Sweep)] + after;
      assert before[0] in before + after;
      assert before + after == [before[0]] + (before[1..] + after);
      SweepsDropOut(before[1..], after, now);
    }
  }

  lemma {:induction false} NoSweeps(log: seq<Event>)
    requires forall ev :: ev in log ==> !ev.step.Sweep?
    ensures WithoutSweeps(log) == log
  {
    if log != [] {
      assert log[0] in log;
      NoSweeps(log[1..]);
    }
  }

  /** Two approvals of different keys put two grants into the empty store. */
  lemma TwoApprovals(c: Crypto, a: PairRequest, b: PairRequest, t: nat)
    returns (states: seq<State>, log: seq<Event>, ga: Grant, gb: Grant)
    requires Digests(c) && Genuine(c, a) && Genuine(c, b)
    requires c.fingerprint(a.pubkey) != c.fingerprint(b.pubkey)
    ensures Run(c, states, log) && |log| == 4 && log[3].now == t
    ensures forall ev :: ev in log ==> !ev.step.Sweep?
    ensures ga == NewGrant(c.fingerprint(a.pubkey).value, a, Approval(a.nodeId, 1), t)
    ensures gb == NewGrant(c.fingerprint(b.pubkey).value, b, Approval(b.nodeId, 0), t)
    ensures states[4] == INITIAL.(grants := [ga, gb])
  {
    ga := NewGrant(c.fingerprint(a.pubkey).value, a, Approval(a.nodeId, 1), t);
    gb := NewGrant(c.fingerprint(b.pubkey).value, b, Approval(b.nodeId, 0), t);
    UpsertSecond(ga, gb);
    var first := INITIAL.(grants := [ga]);
    assert Run(c, [INITIAL], []);
    RunGrowsByApproval(c, [INITIAL], [], a, 1, t);
    var queued := AfterPair(c, INITIAL, a, t);
    var opening := [Event(t, Pair(a)), Event(t, Decide(Approval(a.nodeId, 1)))];
    states, log := [INITIAL] + [queued, first], [] + opening;
    assert [ga][1..] == [];
    RunGrowsByApproval(c, states, log, b, 0, t);
    states := states + [AfterPair(c, first, b, t), INITIAL.(grants := [ga, gb])];
    log := log + [Event(t, Pair(b)), Event(t, Decide(Approval(b.nodeId, 0)))];
  }

  /** The run ends with a request that is accepted, and refused if the sweeps are left out. */
  ghost predicate SweepDecides(
      c: Crypto, states: seq<State>, log: seq<Event>, unswept: seq<State>, r: SignedRequest, now: nat)
    requires Digests(c)
  {
    var short := WithoutSweeps(log);
    && Run(c, states, log) && Run(c, unswept, short) && log != [] && short != []
    && log[|log| - 1] == short[|short| - 1] == Event(now, Request(r))
    && Outcome(c, states[|log| - 1], r, now).Some? && Outcome(c, unswept[|short| - 1], r, now).None?
  }

  /** The run goes on with a sweep and a request. */
  lemma SweepAndAsk(c: Crypto, states: seq<State>, log: seq<Event>, r: SignedRequest, now: nat)
    returns (states': seq<State>, log': seq<Event>)
    requires Digests(c) && Run(c, states, log) && (log != [] ==> log[|log| - 1].now <= now)
    ensures log' == log + [Event(now, Sweep)] + [Event(now, Request(r))] && Run(c, states', log')
    ensures var s := states[|log|];
            states'[|log| + 1] == s.(grants := LiveGrants(s.grants, now))
  {
    var s, sweep, ask := states[|log|], Event(now, Sweep), Event(now, Request(r));
    var swept := s.(grants := LiveGrants(s.grants, now));
    RunGrows(c, states, log, sweep, swept);
    RunGrows(c, states + [swept], log + [sweep], ask, AfterSeeing(c, swept, r, now));
    states', log' := states + [swept] + [AfterSeeing(c, swept, r, now)], log + [sweep] + [ask];
  }

  /** Approved first and expired, `a` hides `b`: without a sweep the request of `b` is refused. */
  lemma UnsweptRefuses(c: Crypto, a: PairRequest, b: PairRequest, r: SignedRequest, v: Caller, now: nat)
    returns (before: seq<State>, paired: seq<Event>)
    requires Digests(c) && Genuine(c, a) && Genuine(c, b) && a.nodeId == b.nodeId
    requires c.fingerprint(a.pubkey) != c.fingerprint(b.pubkey)
    requires now > 0 && VerifySigned(c, r, now) == Ok(v) && v.node == b.nodeId
    requires c.fingerprint(v.pub) == c.fingerprint(b.pubkey)
    ensures Run(c, before, paired) && |paired| == 4 && paired[3].now <= now
    ensures forall ev :: ev in paired ==> !ev.step.Sweep?
    ensures var s := before[4];
            Outcome(c, s, r, now).None? && Outcome(c, s.(grants := LiveGrants(s.grants, now)), r, now).Some?
  {
    var dead, alive;
    before, paired, dead, alive := TwoApprovals(c, a, b, now - 1);
    DeadGrantHidesLive(c, before[4], r, now, dead, alive, v);
  }

  /** Distinct node ids are needed: for any two keys that share a node id there is
      a run in which the first one's expired grant hides the second one's live
      grant, so that the sweep decides whether a request is accepted. */
  lemma CollisionMakesSweepVisible(c: Crypto, a: PairRequest, b: PairRequest, r: SignedRequest, v: Caller, now: nat)
    returns (states: seq<State>, log: seq<Event>, unswept: seq<State>)
    requires Digests(c) && Genuine(c, a) && Genuine(c, b) && a.nodeId == b.nodeId
    requires c.fingerprint(a.pubkey) != c.fingerprint(b.pubkey)
    requires now > 0 && VerifySigned(c, r, now) == Ok(v) && v.node == b.nodeId
    requires c.fingerprint(v.pub) == c.fingerprint(b.pubkey)
    ensures SweepDecides(c, states, log, unswept, r, now)
  {
    var before, paired := UnsweptRefuses(c, a, b, r, v, now);
    var ask, next := Event(now, Request(r)), AfterSeeing(c, before[4], r, now);
    unswept := before + [next];
    RunGrows(c, before, paired, ask, next);
    SweepsDropOut(paired, [ask], now);
    states, log := SweepAndAsk(c, before, paired, r, now);
  }
}
