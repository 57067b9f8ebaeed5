/** What holds in every state a daemon can reach, and where every accepted
    request's authority came from. */
module AccessSafety {
  import opened Options
  import opened Canonical
  import opened Grants
  import opened Access
  import opened Sets

  // ---- Lists of grants ----

  lemma {:induction false} WithoutMembers(gs: seq<Grant>, fp: string, g: Grant)
    ensures g in Without(gs, fp) <==> g in gs && g.fingerprint != fp
  {
    if gs != [] {
      WithoutMembers(gs[1..], fp, g);
      assert g in gs <==> g == gs[0] || g in gs[1..];
    }
  }

  lemma {:induction false} LiveMembers(gs: seq<Grant>, now: nat, g: Grant)
    ensures g in LiveGrants(gs, now) <==> g in gs && Live(g, now)
  {
    if gs != [] {
      LiveMembers(gs[1..], now, g);
      assert g in gs <==> g == gs[0] || g in gs[1..];
    }
  }

  lemma ConsUnique(h: Grant, rest: seq<Grant>)
    requires UniqueFingerprints(rest) && forall g :: g in rest ==> g.fingerprint != h.fingerprint
    ensures UniqueFingerprints([h] + rest)
  {
  }

  lemma {:induction false} WithoutKeepsUnique(gs: seq<Grant>, fp: string)
    requires UniqueFingerprints(gs)
    ensures UniqueFingerprints(Without(gs, fp))
  {
    if gs != [] {
      WithoutKeepsUnique(gs[1..], fp);
      forall g | g in Without(gs[1..], fp) ensures g.fingerprint != gs[0].fingerprint {
        WithoutMembers(gs[1..], fp, g);
      }
      ConsUnique(gs[0], Without(gs[1..], fp));
    }
  }

  lemma {:induction false} LiveKeepsUnique(gs: seq<Grant>, now: nat)
    requires UniqueFingerprints(gs)
    ensures UniqueFingerprints(LiveGrants(gs, now))
  {
    if gs != [] {
      LiveKeepsUnique(gs[1..], now);
      forall g | g in LiveGrants(gs[1..], now) ensures g.fingerprint != gs[0].fingerprint {
        LiveMembers(gs[1..], now, g);
      }
      ConsUnique(gs[0], LiveGrants(gs[1..], now));
    }
  }

  lemma UpsertKeepsUnique(gs: seq<Grant>, g: Grant)
    requires UniqueFingerprints(gs)
    ensures UniqueFingerprints(Upserted(gs, g))
  {
    WithoutKeepsUnique(gs, g.fingerprint);
    forall x | x in Without(gs, g.fingerprint) ensures x.fingerprint != g.fingerprint {
      WithoutMembers(gs, g.fingerprint, x);
    }
  }

  /** Updating scopes and permissions touches nothing else. */
  lemma {:induction false} UpdateKeepsIdentity(gs: seq<Grant>, u: GrantUpdate, i: nat)
    requires i < |gs|
    ensures var g := Updated(gs, u)[i];
            && g.fingerprint == gs[i].fingerprint && g.nodeId == gs[i].nodeId && g.name == gs[i].name
            && g.granted == gs[i].granted && g.expires == gs[i].expires
  {
    if gs[0].fingerprint != u.fingerprint && i > 0 { UpdateKeepsIdentity(gs[1..], u, i - 1); }
  }

  // ---- Bounded maps ----

  lemma SizeAfterInsert<T>(m: map<string, T>, k: string, v: T)
    ensures |m[k := v]| == if k in m then |m| else |m| + 1
  {
    assert m[k := v].Keys == m.Keys + {k};
  }

  lemma PruneShrinks(pending: map<string, PendingEntry>, now: nat)
    ensures |Pruned(pending, now)| <= |pending|
  {
    SubsetSize(Pruned(pending, now).Keys, pending.Keys);
  }

  lemma RememberStaysBounded(d: map<string, Remembered>, node: string, resp: StatusResponse, now: nat,
                             d': map<string, Remembered>)
    requires |d| <= MAX_DECISIONS && Remembers(d, node, resp, now, d')
    ensures |d'| <= MAX_DECISIONS
  {
    if node in d || |d| < MAX_DECISIONS {
      SizeAfterInsert(d, node, Remembered(resp, now));
    } else {
      var k :| IsOldest(d, k) && d' == (d - {k})[node := Remembered(resp, now)];
      assert (d - {k}).Keys == d.Keys - {k};
      SizeAfterInsert(d - {k}, node, Remembered(resp, now));
    }
  }

  // ---- The invariant ----

  ghost predicate GrantOk(c: Crypto, g: Grant)
    requires Digests(c)
  {
    exists pk :: c.fingerprint(pk) == Some(g.fingerprint) && g.nodeId == NodeIdOf(g.fingerprint)
  }

  ghost predicate PendingOk(c: Crypto, node: string, e: PendingEntry)
    requires Digests(c)
  {
    e.request.nodeId == node && Genuine(c, e.request)
  }

  ghost predicate Inv(c: Crypto, s: State)
    requires Digests(c)
  {
    && UniqueFingerprints(s.grants)
    && (forall g :: g in s.grants ==> GrantOk(c, g))
    && (forall n :: n in s.pending ==> PendingOk(c, n, s.pending[n]))
    && |s.pending| <= MAX_PENDING
    && |s.decisions| <= MAX_DECISIONS
  }

  lemma PairKeepsInv(c: Crypto, s: State, req: PairRequest, now: nat)
    requires Digests(c) && Inv(c, s)
    ensures Inv(c, AfterPair(c, s, req, now))
  {
    var pruned := Pruned(s.pending, now);
    PruneShrinks(s.pending, now);
    SizeAfterInsert(pruned, req.nodeId, PendingEntry(req, now));
  }

  lemma DecideKeepsInv(c: Crypto, s: State, d: Decision, now: nat, s': State)
    requires Digests(c) && Inv(c, s) && DecideStep(c, s, d, now, s')
    ensures Inv(c, s')
  {
    if d.node in s.pending {
      SubsetSize((s.pending - {d.node}).Keys, s.pending.Keys);
      var req := s.pending[d.node].request;
      if d.verdict != "approve" {
        RememberStaysBounded(s.decisions, d.node, StatusResponse(Denied, None), now, s'.decisions);
      } else if Approves(c, s, d) {
        var g := NewGrant(c.fingerprint(req.pubkey).value, req, d, now);
        UpsertKeepsUnique(s.grants, g);
        assert GrantOk(c, g);
        forall x | x in s'.grants ensures GrantOk(c, x) { WithoutMembers(s.grants, g.fingerprint, x); }
      }
    }
  }

  lemma OwnerKeepsInv(c: Crypto, s: State, ev: Event, s': State)
    requires Digests(c) && Inv(c, s) && Next(c, s, ev, s')
    requires ev.step.Revoke? || ev.step.Update? || ev.step.Rescope? || ev.step.Sweep? || ev.step.Restart?
    ensures Inv(c, s')
  {
    match ev.step
    case Revoke(fp) =>
      WithoutKeepsUnique(s.grants, fp);
      forall g | g in s'.grants ensures GrantOk(c, g) { WithoutMembers(s.grants, fp, g); }
    case Sweep =>
      LiveKeepsUnique(s.grants, ev.now);
      forall g | g in s'.grants ensures GrantOk(c, g) { LiveMembers(s.grants, ev.now, g); }
    case Restart(_) =>
      forall i | 0 <= i < |s.grants|
        ensures s'.grants[i].fingerprint == s.grants[i].fingerprint && GrantOk(c, s'.grants[i])
      {
        assert GrantOk(c, s.grants[i]);
      }
    case Rescope(_, _, _) =>
      forall i | 0 <= i < |s.grants|
        ensures s'.grants[i].fingerprint == s.grants[i].fingerprint && GrantOk(c, s'.grants[i])
      {
        assert GrantOk(c, s.grants[i]);
      }
    case Update(u) =>
      forall i | 0 <= i < |s.grants|
        ensures s'.grants[i].fingerprint == s.grants[i].fingerprint && GrantOk(c, s'.grants[i])
      {
        UpdateKeepsIdentity(s.grants, u, i);
        assert GrantOk(c, s.grants[i]);
      }
  }

  lemma StepKeepsInv(c: Crypto, s: State, ev: Event, s': State)
    requires Digests(c) && Inv(c, s) && Next(c, s, ev, s')
    ensures Inv(c, s')
  {
    match ev.step
    case Pair(req) => PairKeepsInv(c, s, req, ev.now);
    case Decide(d) => DecideKeepsInv(c, s, d, ev.now, s');
    case Notified(node, resp) => RememberStaysBounded(s.decisions, node, resp, ev.now, s'.decisions);
    case Revoke(_) => OwnerKeepsInv(c, s, ev, s');
    case Update(_) => OwnerKeepsInv(c, s, ev, s');
    case Rescope(_, _, _) => OwnerKeepsInv(c, s, ev, s');
    case Sweep => OwnerKeepsInv(c, s, ev, s');
    case Restart(_) => OwnerKeepsInv(c, s, ev, s');
    case Request(_) =>
    case Poll(_, _) =>
  }

  lemma RunStepKeepsInv(c: Crypto, states: seq<State>, log: seq<Event>, i: nat)
    requires Digests(c) && Follows(c, states, log) && i < |log| && Inv(c, states[i])
    ensures Inv(c, states[i + 1])
  {
    assert StepAt(c, states, log, i);
    StepKeepsInv(c, states[i], log[i], states[i + 1]);
  }

  /** Every reachable state has grants unique by fingerprint, node ids that are
      the fingerprint's first 16 characters, at most 64 pending requests (all
      validly signed by the key their node id names) and at most 256 decisions. */
  lemma {:induction false} ReachableStatesAreSafe(c: Crypto, states: seq<State>, log: seq<Event>, i: nat)
    requires Digests(c) && Run(c, states, log) && i < |states|
    ensures Inv(c, states[i]) && |states[i].pending| <= 64 && |states[i].decisions| <= 256
  {
    if i > 0 {
      ReachableStatesAreSafe(c, states, log, i - 1);
      RunStepKeepsInv(c, states, log, i - 1);
    }
  }
}
