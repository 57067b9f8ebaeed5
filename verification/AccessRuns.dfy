/** Building runs: every log can be run, and a run can be extended. */
module AccessRuns {
  import opened Options
  import opened Canonical
  import opened Grants
  import opened ShareTree
  import opened ShareItem
  import opened Access

  // ---- Every step is possible ----

  lemma {:induction false} OldestExists(d: map<string, Remembered>) returns (k: string)
    requires d != map[]
    ensures IsOldest(d, k)
    decreases |d|
  {
    k :| k in d;
    var rest := d - {k};
    assert forall n :: n in d ==> n == k || (n in rest && rest[n] == d[n]);
    if rest != map[] {
      assert rest.Keys == d.Keys - {k};
      var k' := OldestExists(rest);
      if d[k'].at < d[k].at { k := k'; }
    }
  }

  lemma CanRemember(d: map<string, Remembered>, node: string, resp: StatusResponse, now: nat)
    returns (d': map<string, Remembered>)
    ensures Remembers(d, node, resp, now, d')
  {
    if node in d || |d| < MAX_DECISIONS {
      d' := d[node := Remembered(resp, now)];
    } else {
      var k := OldestExists(d);
      d' := (d - {k})[node := Remembered(resp, now)];
    }
  }

  lemma CanDecide(c: Crypto, s: State, d: Decision, now: nat) returns (s': State)
    ensures DecideStep(c, s, d, now, s')
  {
    s' := s;
    if d.node in s.pending {
      var req := s.pending[d.node].request;
      s' := s.(pending := s.pending - {d.node});
      if d.verdict != "approve" {
        var decisions := CanRemember(s.decisions, d.node, StatusResponse(Denied, None), now);
        s' := s'.(decisions := decisions);
      } else if Approves(c, s, d) {
        s' := s'.(grants := Upserted(s.grants, NewGrant(c.fingerprint(req.pubkey).value, req, d, now)));
      }
    }
  }

  /** Listings name their entries after their directory; nothing else restricts a step. */
  ghost predicate Possible(ev: Event) {
    ev.step.Rescope? ==> BuildsPaths(ListTree(ev.step.listings))
  }

  lemma CanStep(c: Crypto, s: State, ev: Event) returns (s': State)
    requires Digests(c) && Possible(ev)
    ensures Next(c, s, ev, s')
  {
    match ev.step
    case Pair(req) => s' := AfterPair(c, s, req, ev.now);
    case Decide(d) => s' := CanDecide(c, s, d, ev.now);
    case Revoke(fp) => s' := s.(grants := Without(s.grants, fp));
    case Update(u) => s' := s.(grants := Updated(s.grants, u));
    case Rescope(path, selected, listings) =>
      s' := s.(grants := RescopedAll(s.grants, path, selected, ListTree(listings)));
    case Sweep => s' := s.(grants := LiveGrants(s.grants, ev.now));
    case Restart(file) => s' := INITIAL.(grants := Reloaded(s.grants, file));
    case Request(r) => s' := AfterSeeing(c, s, r, ev.now);
    case Poll(r, _) => s' := AfterSeeing(c, s, r, ev.now);
    case Notified(node, resp) =>
      var decisions := CanRemember(s.decisions, node, resp, ev.now);
      s' := s.(decisions := decisions);
  }

  /** A run is extended by any step that is possible in its last state. */
  lemma RunGrows(c: Crypto, states: seq<State>, log: seq<Event>, ev: Event, next: State)
    requires Digests(c) && Run(c, states, log)
    requires log != [] ==> log[|log| - 1].now <= ev.now
    requires Next(c, states[|log|], ev, next)
    ensures Run(c, states + [next], log + [ev])
  {
    var states', log' := states + [next], log + [ev];
    forall i: nat | i < |log'| ensures StepAt(c, states', log', i) {
      if i < |log| { assert StepAt(c, states, log, i); }
    }
  }

  /** Every ordered log of possible steps is the log of some run. */
  lemma {:induction false} EveryLogRuns(c: Crypto, log: seq<Event>) returns (states: seq<State>)
    requires Digests(c) && NonDecreasing(log) && forall ev :: ev in log ==> Possible(ev)
    ensures Run(c, states, log)
    decreases |log|
  {
    if log == [] {
      states := [INITIAL];
    } else {
      var front, last := log[..|log| - 1], log[|log| - 1];
      states := EveryLogRuns(c, front);
      var next := CanStep(c, states[|front|], last);
      RunGrows(c, states, front, last, next);
      assert front + [last] == log;
      states := states + [next];
    }
  }

  // ---- Pairing ----

  function Approval(node: string, duration: nat): Decision {
    Decision(node, "approve", duration, None, None)
  }

  /** From an empty queue: a request and its approval only add the grant. */
  lemma RequestAndApprove(c: Crypto, s: State, req: PairRequest, duration: nat, t: nat)
    requires Digests(c) && Genuine(c, req) && s.pending == map[]
    requires !HasLiveGrant(s, c.fingerprint(req.pubkey).value, t)
    ensures var d := Approval(req.nodeId, duration);
            var g := NewGrant(c.fingerprint(req.pubkey).value, req, d, t);
            DecideStep(c, AfterPair(c, s, req, t), d, t, s.(grants := Upserted(s.grants, g)))
  {
    assert Pruned(s.pending, t) == map[];
    var queued := AfterPair(c, s, req, t);
    assert queued.pending == map[req.nodeId := PendingEntry(req, t)];
    assert queued.pending - {req.nodeId} == map[];
  }

  lemma UpsertSecond(a: Grant, b: Grant)
    requires a.fingerprint != b.fingerprint
    ensures Upserted([], a) == [a] && Upserted([a], b) == [a, b]
  {
    assert [a][1..] == [];
    assert Without([a], b.fingerprint) == [a] + Without([], b.fingerprint);
  }

  lemma RunGrowsByApproval(c: Crypto, states: seq<State>, log: seq<Event>, req: PairRequest, duration: nat, t: nat)
    requires Digests(c) && Genuine(c, req) && Run(c, states, log)
    requires log != [] ==> log[|log| - 1].now <= t
    requires states[|log|].pending == map[] && !HasLiveGrant(states[|log|], c.fingerprint(req.pubkey).value, t)
    ensures var s := states[|log|];
            var d := Approval(req.nodeId, duration);
            var g := NewGrant(c.fingerprint(req.pubkey).value, req, d, t);
            Run(c, states + [AfterPair(c, s, req, t), s.(grants := Upserted(s.grants, g))],
                log + [Event(t, Pair(req)), Event(t, Decide(d))])
  {
    var s := states[|log|];
    var d := Approval(req.nodeId, duration);
    var g := NewGrant(c.fingerprint(req.pubkey).value, req, d, t);
    var queued, done := AfterPair(c, s, req, t), s.(grants := Upserted(s.grants, g));
    RequestAndApprove(c, s, req, duration, t);
    RunGrows(c, states, log, Event(t, Pair(req)), queued);
    RunGrows(c, states + [queued], log + [Event(t, Pair(req))], Event(t, Decide(d)), done);
    assert states + [queued] + [done] == states + [queued, done];
    assert log + [Event(t, Pair(req))] + [Event(t, Decide(d))] == log + [Event(t, Pair(req)), Event(t, Decide(d))];
  }
}
