/** How often one signature can pass the replay check, and how often one signed
    request can be let in. */
module AccessReplay {
  import opened Options
  import opened Canonical
  import opened Numbers
  import opened Grants
  import opened Access
  import opened AccessSafety
  import opened AccessProvenance
  import opened AccessRuns

  /** The step presents `sig` on a verified request. */
  predicate Presents(c: Crypto, ev: Event, sig: string) {
    && Carried(ev.step).Some?
    && var v := VerifySigned(c, Carried(ev.step).value, ev.now);
       v.Ok? && v.value.sig == sig
  }

  /** The step's signature is `sig`, verifies, and is let past the replay check. */
  predicate Accepts(c: Crypto, s: State, ev: Event, sig: string) {
    Presents(c, ev, sig) && NotReplayed(s.seen, sig, ev.now)
  }

  /** An acceptance at time `t` still bars `sig`, or its 900 s are over by `now`. */
  predicate Barred(seen: map<string, nat>, sig: string, t: nat, now: nat) {
    (sig in seen && seen[sig] >= t) || now >= t + MAX_SKEW_SECS + 1
  }

  lemma StepKeepsBar(c: Crypto, s: State, ev: Event, seen: map<string, nat>, sig: string, t: nat, before: nat)
    requires seen == SeenAfter(c, s, ev) && t <= ev.now && before <= ev.now && !ev.step.Restart?
    requires Barred(s.seen, sig, t, before) || (Presents(c, ev, sig) && t == ev.now)
    ensures Barred(seen, sig, t, ev.now)
  {
  }

  /** The daemon is not restarted between steps `i` and `j`. */
  ghost predicate Uninterrupted(log: seq<Event>, i: nat, j: nat) {
    forall m :: i < m < j && m < |log| ==> !log[m].step.Restart?
  }

  lemma {:induction false} StaysBarred(c: Crypto, states: seq<State>, log: seq<Event>, i: nat, j: nat, sig: string)
    requires Digests(c) && Follows(c, states, log) && i < j <= |log| && Presents(c, log[i], sig) && Uninterrupted(log, i, j)
    ensures Barred(states[j].seen, sig, log[i].now, log[j - 1].now)
  {
    StepSeen(c, states, log, j - 1);
    if j > i + 1 { StaysBarred(c, states, log, i, j - 1, sig); }
    StepKeepsBar(c, states[j - 1], log[j - 1], states[j].seen, sig, log[i].now, if j > i + 1 then log[j - 2].now else 0);
  }

  /** In one daemon lifetime two acceptances of one signature are at least 901 s
      apart; even a refused replay restarts the wait. */
  lemma AcceptancesAreApart(c: Crypto, states: seq<State>, log: seq<Event>, i: nat, j: nat, sig: string)
    requires Digests(c) && Follows(c, states, log) && i < j < |log| && Uninterrupted(log, i, j)
    requires Presents(c, log[i], sig) && Accepts(c, states[j], log[j], sig)
    ensures log[j].now >= log[i].now + 901
  {
    StaysBarred(c, states, log, i, j, sig);
  }

  /** One signature string verifies for one message only. */
  ghost predicate BindsMessage(c: Crypto) {
    forall pk, pk', m, m', sig :: c.verify(pk, m, sig) && c.verify(pk', m', sig) ==> m == m'
  }

  /** HTTP keeps line breaks out of the request line and the nonce header. */
  predicate OneLineRequest(r: SignedRequest) {
    OneLine(r.verb) && OneLine(r.pathQ) && (r.nonce.Some? ==> OneLine(r.nonce.value))
  }

  predicate OneLineStep(ev: Event) {
    Carried(ev.step).Some? ==> OneLineRequest(Carried(ev.step).value)
  }

  /** The timestamp a verified request carries. */
  function Stamp(c: Crypto, ev: Event, sig: string): nat
    requires Presents(c, ev, sig)
  {
    Parse(Carried(ev.step).value.ts.value, 10).value
  }

  lemma NearStamp(c: Crypto, ev: Event, sig: string)
    requires Presents(c, ev, sig)
    ensures AbsDiff(ev.now, Stamp(c, ev, sig)) <= 900
  {
  }

  lemma SignatureFixesStamp(c: Crypto, a: Event, b: Event, sig: string)
    requires BindsMessage(c) && Presents(c, a, sig) && Presents(c, b, sig) && OneLineStep(a) && OneLineStep(b)
    ensures Stamp(c, a, sig) == Stamp(c, b, sig)
  {
    var r, q := Carried(a.step).value, Carried(b.step).value;
    var t, u := Stamp(c, a, sig), Stamp(c, b, sig);
    assert c.verify(r.pub.value, Signed(r, t), sig) && c.verify(q.pub.value, Signed(q, u), sig);
    RequestStringIsInjective(
      r.verb, r.pathQ, t, if r.nonce.Some? then r.nonce.value else "", r.body,
      q.verb, q.pathQ, u, if q.nonce.Some? then q.nonce.value else "", q.body);
  }

  /** In one daemon lifetime one signature is accepted at most twice. */
  lemma AcceptedAtMostTwice(c: Crypto, states: seq<State>, log: seq<Event>, i: nat, j: nat, k: nat, sig: string)
    requires Digests(c) && BindsMessage(c) && Follows(c, states, log) && i <= j <= k < |log| && Uninterrupted(log, i, k)
    requires forall n :: 0 <= n < |log| ==> OneLineStep(log[n])
    requires Accepts(c, states[i], log[i], sig) && Accepts(c, states[j], log[j], sig) && Accepts(c, states[k], log[k], sig)
    ensures i == j || j == k
  {
    if i < j < k {
      AcceptancesAreApart(c, states, log, i, j, sig);
      AcceptancesAreApart(c, states, log, j, k, sig);
      SignatureFixesStamp(c, log[i], log[k], sig);
      NearStamp(c, log[i], sig);
      NearStamp(c, log[k], sig);
    }
  }

  /** It is accepted only once if its first acceptance was not ahead of its timestamp. */
  lemma AcceptedOnceIfNotEarly(c: Crypto, states: seq<State>, log: seq<Event>, i: nat, j: nat, sig: string)
    requires Digests(c) && BindsMessage(c) && Follows(c, states, log) && i <= j < |log| && Uninterrupted(log, i, j)
    requires forall n :: 0 <= n < |log| ==> OneLineStep(log[n])
    requires Accepts(c, states[i], log[i], sig) && Accepts(c, states[j], log[j], sig)
    requires log[i].now >= Stamp(c, log[i], sig)
    ensures i == j
  {
    if i < j {
      AcceptancesAreApart(c, states, log, i, j, sig);
      SignatureFixesStamp(c, log[i], log[j], sig);
      NearStamp(c, log[j], sig);
    }
  }

  // ---- One signed request ----

  /** `r` reads, once its timestamp is parsed, as the text `m`. */
  predicate Says(r: SignedRequest, m: string) {
    r.ts.Some? && Parse(r.ts.value, 10).Some? && Signed(r, Parse(r.ts.value, 10).value) == m
  }

  /** The step is a request that says `m` and is let in. */
  predicate Admits(c: Crypto, s: State, ev: Event, m: string) {
    && ev.step.Request? && Says(ev.step.signed, m) && OneLineRequest(ev.step.signed)
    && RequireAuth(c, s, ev.step.signed, ev.now).Ok?
  }

  lemma AdmittedWasAccepted(c: Crypto, s: State, ev: Event, m: string) returns (sig: string)
    requires Admits(c, s, ev, m)
    ensures ev.step.signed.sig == Some(sig) && Accepts(c, s, ev, sig)
  {
    sig := VerifySigned(c, ev.step.signed, ev.now).value.sig;
  }

  lemma SameTextSameStamp(r: SignedRequest, q: SignedRequest, m: string)
    requires Says(r, m) && Says(q, m) && OneLineRequest(r) && OneLineRequest(q)
    ensures Parse(r.ts.value, 10) == Parse(q.ts.value, 10)
  {
    RequestStringIsInjective(
      r.verb, r.pathQ, Parse(r.ts.value, 10).value, if r.nonce.Some? then r.nonce.value else "", r.body,
      q.verb, q.pathQ, Parse(q.ts.value, 10).value, if q.nonce.Some? then q.nonce.value else "", q.body);
  }

  /** What it takes to be let in twice with one text: a restart in between, another
      signature, or a first time ahead of the timestamp and 901 s before the second. */
  lemma AdmittedTwiceOnlyIf(c: Crypto, states: seq<State>, log: seq<Event>, i: nat, j: nat, m: string)
    requires Digests(c) && Follows(c, states, log) && i < j < |log|
    requires Admits(c, states[i], log[i], m) && Admits(c, states[j], log[j], m)
    ensures !Uninterrupted(log, i, j) || log[i].step.signed.sig != log[j].step.signed.sig
            || (log[i].now < Parse(log[i].step.signed.ts.value, 10).value && log[j].now >= log[i].now + 901)
  {
    var sig := AdmittedWasAccepted(c, states[i], log[i], m);
    var sig' := AdmittedWasAccepted(c, states[j], log[j], m);
    if sig == sig' && Uninterrupted(log, i, j) {
      AcceptancesAreApart(c, states, log, i, j, sig);
      SameTextSameStamp(log[i].step.signed, log[j].step.signed, m);
      NearStamp(c, log[j], sig);
    }
  }

  // ---- Each of the three happens ----

  /** `r` comes from the key that sent the pair request `p`, with signature `sig`. */
  predicate SentBy(c: Crypto, p: PairRequest, r: SignedRequest, ts: nat, sig: string) {
    && r.node == Some(p.nodeId) && r.pub.Some? && c.fingerprint(r.pub.value) == c.fingerprint(p.pubkey)
    && r.ts.Some? && Parse(r.ts.value, 10) == Some(ts)
    && r.sig == Some(sig) && c.verify(r.pub.value, Signed(r, ts), sig)
  }

  /** The grant a permanent approval of `p` at `t` creates. */
  function GrantFor(c: Crypto, p: PairRequest, t: nat): Grant
    requires Digests(c) && Genuine(c, p)
  {
    NewGrant(c.fingerprint(p.pubkey).value, p, Approval(p.nodeId, 0), t)
  }

  /** Someone holding the only grant is let in with any fresh signature. */
  lemma HolderIsAdmitted(c: Crypto, s: State, p: PairRequest, t: nat, r: SignedRequest, ts: nat, sig: string, now: nat)
    requires Digests(c) && Genuine(c, p) && s.grants == [GrantFor(c, p, t)] && SentBy(c, p, r, ts, sig)
    requires AbsDiff(now, ts) <= 900 && NotReplayed(s.seen, sig, now) && OneLineRequest(r)
    ensures VerifySigned(c, r, now) == Ok(Caller(p.nodeId, r.pub.value, sig))
    ensures Admits(c, s, Event(now, Request(r)), Signed(r, ts))
  {
    assert FindByNode(s.grants, p.nodeId) == Some(GrantFor(c, p, t));
  }

  ghost predicate AdmitsTwice(c: Crypto, states: seq<State>, log: seq<Event>, i: nat, j: nat, r: SignedRequest, m: string, at: nat)
    requires Digests(c)
  {
    && Run(c, states, log) && i < j < |log| && log[i] == Event(at, Request(r))
    && Admits(c, states[i], log[i], m) && Admits(c, states[j], log[j], m)
  }

  /** A paired key's request is let in: the run of its first three steps. */
  lemma FirstTime(c: Crypto, p: PairRequest, r: SignedRequest, ts: nat, sig: string, at: nat)
    returns (states: seq<State>, log: seq<Event>)
    requires Digests(c) && Genuine(c, p) && SentBy(c, p, r, ts, sig) && OneLineRequest(r)
    requires AbsDiff(at, ts) <= 900
    ensures Run(c, states, log) && |log| == 3 && log[2] == Event(at, Request(r))
    ensures Admits(c, states[2], log[2], Signed(r, ts))
    ensures states[3] == State([GrantFor(c, p, at)], map[], map[], map[sig := at])
  {
    assert Run(c, [INITIAL], []);
    RunGrowsByApproval(c, [INITIAL], [], p, 0, at);
    var paired := INITIAL.(grants := [GrantFor(c, p, at)]);
    assert Upserted([], GrantFor(c, p, at)) == [GrantFor(c, p, at)];
    states := [INITIAL] + [AfterPair(c, INITIAL, p, at), paired];
    log := [] + [Event(at, Pair(p)), Event(at, Decide(Approval(p.nodeId, 0)))];
    HolderIsAdmitted(c, paired, p, at, r, ts, sig, at);
    var next := AfterSeeing(c, paired, r, at);
    assert Fresh(map[], at) == map[];
    RunGrows(c, states, log, Event(at, Request(r)), next);
    states, log := states + [next], log + [Event(at, Request(r))];
  }

  /** Let in at any moment before its timestamp, the same request is let in again 901 s later. */
  lemma AdmittedTwiceIfEarly(c: Crypto, p: PairRequest, r: SignedRequest, ts: nat, sig: string, at: nat)
    returns (states: seq<State>, log: seq<Event>)
    requires Digests(c) && Genuine(c, p) && SentBy(c, p, r, ts, sig) && OneLineRequest(r)
    requires at < ts <= at + 900
    ensures AdmitsTwice(c, states, log, 2, 3, r, Signed(r, ts), at)
    ensures |log| == 4 && log[3] == Event(at + 901, Request(r))
  {
    states, log := FirstTime(c, p, r, ts, sig, at);
    var s, later := states[3], Event(at + 901, Request(r));
    HolderIsAdmitted(c, s, p, at, r, ts, sig, later.now);
    var next := AfterSeeing(c, s, r, later.now);
    RunGrows(c, states, log, later, next);
    states, log := states + [next], log + [later];
  }

  /** A restart forgets the signatures seen: the same request is let in again at once. */
  lemma RestartAdmitsReplay(c: Crypto, p: PairRequest, r: SignedRequest, ts: nat, sig: string, at: nat)
    returns (states: seq<State>, log: seq<Event>)
    requires Digests(c) && Genuine(c, p) && SentBy(c, p, r, ts, sig) && OneLineRequest(r)
    requires AbsDiff(at, ts) <= 900
    ensures AdmitsTwice(c, states, log, 2, 4, r, Signed(r, ts), at)
    ensures |log| == 5 && log[3] == Event(at, Restart(map[])) && log[4] == log[2]
  {
    states, log := FirstTime(c, p, r, ts, sig, at);
    var s, ask := INITIAL.(grants := states[3].grants), Event(at, Request(r));
    assert Reloaded(states[3].grants, map[]) == states[3].grants;
    RunGrows(c, states, log, Event(at, Restart(map[])), s);
    states, log := states + [s], log + [Event(at, Restart(map[]))];
    HolderIsAdmitted(c, s, p, at, r, ts, sig, at);
    RunGrows(c, states, log, ask, AfterSeeing(c, s, r, at));
    states, log := states + [AfterSeeing(c, s, r, at)], log + [ask];
  }

  /** `sig` is another string that a key which can be paired verifies for `m`: the
      same signature with a hex digit in the other case, for one. */
  ghost predicate OtherSpelling(c: Crypto, m: string, sig: string, p: PairRequest, pk: string, sig': string)
    requires Digests(c)
  {
    && sig' != sig && c.verify(pk, m, sig')
    && Genuine(c, p) && c.fingerprint(p.pubkey) == c.fingerprint(pk)
  }

  ghost predicate Respellable(c: Crypto, m: string, sig: string)
    requires Digests(c)
  {
    exists p, pk, sig' :: OtherSpelling(c, m, sig, p, pk, sig')
  }

  /** The same hex digits, letters in either case. */
  ghost predicate SameHex(a: string, b: string) {
    |a| == |b| && forall i :: 0 <= i < |a| ==> DigitValue(a[i]) == DigitValue(b[i])
  }

  /** Verification decodes the signature from hex first. */
  ghost predicate ReadsHex(c: Crypto) {
    forall pk, m, sig, sig' :: SameHex(sig, sig') ==> c.verify(pk, m, sig) == c.verify(pk, m, sig')
  }

  /** A letter digit in the other case. */
  function Flip(d: char): char {
    if 'a' <= d <= 'f' then d - 'a' + 'A' else if 'A' <= d <= 'F' then d - 'A' + 'a' else d
  }

  /** Decoded from hex, every signature with a letter among its digits has another spelling. */
  lemma LetterIsRespellable(c: Crypto, p: PairRequest, r: SignedRequest, ts: nat, sig: string, i: nat)
    requires Digests(c) && ReadsHex(c) && Genuine(c, p) && SentBy(c, p, r, ts, sig)
    requires i < |sig| && Flip(sig[i]) != sig[i]
    ensures Respellable(c, Signed(r, ts), sig)
  {
    var sig' := sig[i := Flip(sig[i])];
    assert SameHex(sig, sig') && sig'[i] != sig[i];
    assert OtherSpelling(c, Signed(r, ts), sig, p, r.pub.value, sig');
  }

  /** The request under the other signature. */
  function Respelled(r: SignedRequest, p: PairRequest, pk: string, sig: string): SignedRequest {
    r.(node := Some(p.nodeId), pub := Some(pk), sig := Some(sig))
  }

  /** The key is revoked and another one, or the same one again, is paired. */
  lemma PairedAnew(c: Crypto, states: seq<State>, log: seq<Event>, p: PairRequest, at: nat, p': PairRequest)
    returns (states': seq<State>, log': seq<Event>)
    requires Digests(c) && Genuine(c, p) && Genuine(c, p') && Run(c, states, log) && log != []
    requires log[|log| - 1].now <= at && states[|log|].grants == [GrantFor(c, p, at)] && states[|log|].pending == map[]
    ensures Run(c, states', log') && |log'| == |log| + 3 && log <= log' && states <= states'
    ensures log'[|log| + 2].now == at && Uninterrupted(log', |log| - 1, |log'|)
    ensures states'[|log'|] == states[|log|].(grants := [GrantFor(c, p', at)])
  {
    var s, fp := states[|log|].(grants := []), GrantFor(c, p, at).fingerprint;
    var revoke := Event(at, Revoke(fp));
    assert Without(states[|log|].grants, fp) == [];
    RunGrows(c, states, log, revoke, s);
    RunGrowsByApproval(c, states + [s], log + [revoke], p', 0, at);
    assert Upserted([], GrantFor(c, p', at)) == [GrantFor(c, p', at)];
    states' := states + [s] + [AfterPair(c, s, p', at), s.(grants := [GrantFor(c, p', at)])];
    log' := log + [revoke] + [Event(at, Pair(p')), Event(at, Decide(Approval(p'.nodeId, 0)))];
  }

  /** Under another spelling of its signature a request is let in again in the same second. */
  lemma RespelledIsAdmitted(c: Crypto, p: PairRequest, r: SignedRequest, ts: nat, sig: string, at: nat,
                            p': PairRequest, pk: string, sig': string)
    returns (states: seq<State>, log: seq<Event>)
    requires Digests(c) && Genuine(c, p) && SentBy(c, p, r, ts, sig) && OneLineRequest(r)
    requires AbsDiff(at, ts) <= 900 && OtherSpelling(c, Signed(r, ts), sig, p', pk, sig')
    ensures AdmitsTwice(c, states, log, 2, 6, r, Signed(r, ts), at) && |log| == 7 && Uninterrupted(log, 2, 6)
    ensures log[6] == Event(at, Request(Respelled(r, p', pk, sig')))
  {
    var before, begun := FirstTime(c, p, r, ts, sig, at);
    states, log := PairedAnew(c, before, begun, p, at, p');
    var q, s := Respelled(r, p', pk, sig'), states[6];
    HolderIsAdmitted(c, s, p', at, q, ts, sig', at);
    RunGrows(c, states, log, Event(at, Request(q)), AfterSeeing(c, s, q, at));
    states, log := states + [AfterSeeing(c, s, q, at)], log + [Event(at, Request(q))];
  }

  /** A request let in under another signature shows that there is another spelling. */
  lemma SpellingOfSecond(c: Crypto, states: seq<State>, log: seq<Event>, j: nat, m: string, sig: string)
    requires Digests(c) && Run(c, states, log) && j < |log| && Admits(c, states[j], log[j], m)
    requires log[j].step.signed.sig != Some(sig)
    ensures Respellable(c, m, sig)
  {
    var q := log[j].step.signed;
    var g := RequireAuth(c, states[j], q, log[j].now).value;
    var a, k := AcceptedRequestWasApproved(c, states, log, j, g);
    var p := log[a].step.req;
    ReachableStatesAreSafe(c, states, log, j);
    assert GrantOk(c, g);
    assert OtherSpelling(c, m, sig, p, q.pub.value, q.sig.value);
  }

  /** Some run, without a restart in between, lets `r` in at time `at` and its text again later. */
  ghost predicate AdmittedAgain(c: Crypto, r: SignedRequest, m: string, at: nat)
    requires Digests(c)
  {
    exists states, log, i, j :: AdmitsTwice(c, states, log, i, j, r, m, at) && Uninterrupted(log, i, j)
  }

  /** In one daemon lifetime a paired key's signed request can be let in a second
      time iff the first time is before its timestamp or another string verifies
      as a signature of it. */
  lemma SecondAcceptanceIff(c: Crypto, p: PairRequest, r: SignedRequest, ts: nat, sig: string, at: nat)
    requires Digests(c) && Genuine(c, p) && SentBy(c, p, r, ts, sig) && OneLineRequest(r)
    requires AbsDiff(at, ts) <= 900
    ensures AdmittedAgain(c, r, Signed(r, ts), at) <==> at < ts || Respellable(c, Signed(r, ts), sig)
  {
    var m := Signed(r, ts);
    if at < ts {
      var states, log := AdmittedTwiceIfEarly(c, p, r, ts, sig, at);
      assert AdmitsTwice(c, states, log, 2, 3, r, m, at) && Uninterrupted(log, 2, 3);
    } else if Respellable(c, m, sig) {
      var p', pk, sig' :| OtherSpelling(c, m, sig, p', pk, sig');
      var states, log := RespelledIsAdmitted(c, p, r, ts, sig, at, p', pk, sig');
      assert AdmitsTwice(c, states, log, 2, 6, r, m, at) && Uninterrupted(log, 2, 6);
    } else if AdmittedAgain(c, r, m, at) {
      var states, log, i, j :| AdmitsTwice(c, states, log, i, j, r, m, at) && Uninterrupted(log, i, j);
      AdmittedTwiceOnlyIf(c, states, log, i, j, m);
      SpellingOfSecond(c, states, log, j, m, sig);
      assert false;
    }
  }
}
