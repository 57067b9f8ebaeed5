/** Pairing, grants and request authentication as steps of one state machine.
    Each step reads the clock once. */
module Access {
  import opened Options
  import opened Numbers
  import opened Canonical
  import opened Grants
  import opened ShareTree
  import opened ShareItem

  const MAX_PENDING: nat := 64
  const PENDING_TTL_SECS: nat := 600
  const MAX_DECISIONS: nat := 256
  const MAX_SKEW_SECS: nat := 900
  const NODE_ID_LEN: nat := 16

  /** Signature verification (key, message, signature) and key fingerprints. */
  datatype Crypto = Crypto(verify: (string, string, string) -> bool, fingerprint: string -> Option<string>)

  /** A fingerprint is a hex digest, long enough to cut a node id from. */
  ghost predicate Digests(c: Crypto) {
    forall pk :: c.fingerprint(pk).Some? ==> |c.fingerprint(pk).value| >= NODE_ID_LEN
  }

  function NodeIdOf(fingerprint: string): string
    requires |fingerprint| >= NODE_ID_LEN
  {
    fingerprint[..NODE_ID_LEN]
  }

  datatype PendingEntry = PendingEntry(request: PairRequest, received: nat)

  datatype PairStatus = Pending | Approved | Denied | Unknown
  datatype StatusResponse = StatusResponse(status: PairStatus, expires: Option<nat>)
  datatype Remembered = Remembered(response: StatusResponse, at: nat)

  datatype State = State(
    grants: seq<Grant>,
    pending: map<string, PendingEntry>,
    decisions: map<string, Remembered>,
    seen: map<string, nat>)

  const INITIAL := State([], map[], map[], map[])

  // ---- Pair requests ----

  datatype PairReply = Answer(response: StatusResponse) | BadSignature | BadKey | WrongNodeId | TooMany

  function FindByFingerprint(gs: seq<Grant>, fp: string): (r: Option<Grant>)
    ensures r.Some? ==> r.value in gs && r.value.fingerprint == fp
    ensures r.None? ==> forall g :: g in gs ==> g.fingerprint != fp
  {
    if gs == [] then None
    else if gs[0].fingerprint == fp then Some(gs[0])
    else FindByFingerprint(gs[1..], fp)
  }

  function FindByNode(gs: seq<Grant>, node: string): (r: Option<Grant>)
    ensures r.Some? ==> r.value in gs && r.value.nodeId == node
    ensures r.None? ==> forall g :: g in gs ==> g.nodeId != node
  {
    if gs == [] then None
    else if gs[0].nodeId == node then Some(gs[0])
    else FindByNode(gs[1..], node)
  }

  function Cutoff(now: nat): nat {
    if now < PENDING_TTL_SECS then 0 else now - PENDING_TTL_SECS
  }

  function Pruned(pending: map<string, PendingEntry>, now: nat): map<string, PendingEntry> {
    map n | n in pending && pending[n].received > Cutoff(now) :: pending[n]
  }

  predicate QueueFull(pending: map<string, PendingEntry>, node: string) {
    node !in pending && |pending| >= MAX_PENDING
  }

  predicate ValidlySigned(c: Crypto, req: PairRequest) {
    c.verify(req.pubkey, PairString(req), req.signature)
  }

  predicate HasLiveGrant(s: State, fp: string, now: nat) {
    var g := FindByFingerprint(s.grants, fp);
    g.Some? && Live(g.value, now)
  }

  function PairReplyTo(c: Crypto, s: State, req: PairRequest, now: nat): PairReply
    requires Digests(c)
  {
    var fp := c.fingerprint(req.pubkey);
    if !ValidlySigned(c, req) then BadSignature
    else if fp.None? then BadKey
    else if NodeIdOf(fp.value) != req.nodeId then WrongNodeId
    else if HasLiveGrant(s, fp.value, now) then
      Answer(StatusResponse(Approved, FindByFingerprint(s.grants, fp.value).value.expires))
    else if QueueFull(Pruned(s.pending, now), req.nodeId) then TooMany
    else Answer(StatusResponse(Pending, None))
  }

  /** The request is signed by the key its node id was cut from. */
  predicate Genuine(c: Crypto, req: PairRequest)
    requires Digests(c)
  {
    && ValidlySigned(c, req)
    && c.fingerprint(req.pubkey).Some?
    && NodeIdOf(c.fingerprint(req.pubkey).value) == req.nodeId
  }

  /** Stale requests are dropped even when the newcomer is then refused. */
  function Queued(pending: map<string, PendingEntry>, req: PairRequest, now: nat): map<string, PendingEntry> {
    var kept := Pruned(pending, now);
    if QueueFull(kept, req.nodeId) then kept else kept[req.nodeId := PendingEntry(req, now)]
  }

  /** Only a genuine request without a live grant reaches the queue. */
  function AfterPair(c: Crypto, s: State, req: PairRequest, now: nat): State
    requires Digests(c)
  {
    if Genuine(c, req) && !HasLiveGrant(s, c.fingerprint(req.pubkey).value, now)
    then s.(pending := Queued(s.pending, req, now)) else s
  }

  // ---- Decisions ----

  predicate IsOldest(d: map<string, Remembered>, k: string) {
    k in d && forall n :: n in d ==> d[k].at <= d[n].at
  }

  /** `d'` remembers the outcome; a full map first loses one of its oldest entries. */
  ghost predicate Remembers(d: map<string, Remembered>, node: string, resp: StatusResponse, now: nat,
                            d': map<string, Remembered>)
  {
    if node in d || |d| < MAX_DECISIONS then d' == d[node := Remembered(resp, now)]
    else exists k :: IsOldest(d, k) && d' == (d - {k})[node := Remembered(resp, now)]
  }

  datatype Decision = Decision(
    node: string, verdict: string, duration: nat, allowFiles: Option<bool>, allowPrint: Option<bool>)

  datatype DecisionReply = Decided(response: StatusResponse) | NoPendingRequest | NoPermission | NoFingerprint

  function GetOr(o: Option<bool>, default: bool): bool {
    if o.Some? then o.value else default
  }

  function ExpiryOf(now: nat, duration: nat): Option<nat> {
    if duration == 0 then None else Some(now + duration)
  }

  /** The grant an approval creates: full scope, files by default. */
  function NewGrant(fp: string, req: PairRequest, d: Decision, now: nat): Grant {
    Grant(fp, req.nodeId, req.name, now, ExpiryOf(now, d.duration), [],
          GetOr(d.allowFiles, true), GetOr(d.allowPrint, false))
  }

  predicate Permits(d: Decision) {
    GetOr(d.allowFiles, true) || GetOr(d.allowPrint, false)
  }

  function DecisionReplyTo(c: Crypto, s: State, d: Decision, now: nat): DecisionReply {
    if d.node !in s.pending then NoPendingRequest
    else if d.verdict != "approve" then Decided(StatusResponse(Denied, None))
    else if !Permits(d) then NoPermission
    else if c.fingerprint(s.pending[d.node].request.pubkey).None? then NoFingerprint
    else Decided(StatusResponse(Approved, ExpiryOf(now, d.duration)))
  }

  predicate Approves(c: Crypto, s: State, d: Decision) {
    && d.node in s.pending && d.verdict == "approve" && Permits(d)
    && c.fingerprint(s.pending[d.node].request.pubkey).Some?
  }

  /** The request is taken off the queue before it is examined. */
  ghost predicate DecideStep(c: Crypto, s: State, d: Decision, now: nat, s': State) {
    if d.node !in s.pending then s' == s
    else
      var req := s.pending[d.node].request;
      var taken := s.(pending := s.pending - {d.node});
      if d.verdict != "approve" then
        && s' == taken.(decisions := s'.decisions)
        && Remembers(s.decisions, d.node, StatusResponse(Denied, None), now, s'.decisions)
      else if Approves(c, s, d) then
        s' == taken.(grants := Upserted(s.grants, NewGrant(c.fingerprint(req.pubkey).value, req, d, now)))
      else s' == taken
  }

  /** Polling for an outcome: pending first, then remembered decisions, then grants. */
  function StatusLookup(s: State, node: string, now: nat): StatusResponse {
    if node in s.pending then StatusResponse(Pending, None)
    else if node in s.decisions then s.decisions[node].response
    else
      var g := FindByNode(LiveGrants(s.grants, now), node);
      if g.Some? then StatusResponse(Approved, g.value.expires) else StatusResponse(Unknown, None)
  }

  // ---- Owner actions ----

  datatype GrantUpdate = GrantUpdate(
    fingerprint: string, paths: seq<string>, allowFiles: Option<bool>, allowPrint: Option<bool>)

  function UpdateOne(g: Grant, u: GrantUpdate): Grant {
    g.(paths := u.paths, allowFiles := GetOr(u.allowFiles, g.allowFiles),
       allowPrint := GetOr(u.allowPrint, g.allowPrint))
  }

  /** The first grant for the fingerprint is rewritten in place. */
  function Updated(gs: seq<Grant>, u: GrantUpdate): (r: seq<Grant>)
    ensures |r| == |gs|
  {
    if gs == [] then []
    else if gs[0].fingerprint == u.fingerprint then [UpdateOne(gs[0], u)] + gs[1..]
    else [gs[0]] + Updated(gs[1..], u)
  }

  datatype UpdateReply = Changed(info: Grant) | UnknownGrant | NothingAllowed

  function UpdateReplyTo(s: State, u: GrantUpdate): UpdateReply {
    var g := FindByFingerprint(s.grants, u.fingerprint);
    if g.None? then UnknownGrant
    else if !UpdateOne(g.value, u).allowFiles && !UpdateOne(g.value, u).allowPrint then NothingAllowed
    else Changed(UpdateOne(g.value, u))
  }

  lemma {:induction false} UpdateOfAbsent(gs: seq<Grant>, u: GrantUpdate)
    requires forall g :: g in gs ==> g.fingerprint != u.fingerprint
    ensures Updated(gs, u) == gs
  {
    if gs != [] {
      assert gs[0] in gs;
      UpdateOfAbsent(gs[1..], u);
    }
  }

  /** Sharing one item rewrites the scope of every grant. */
  ghost function RescopedAll(gs: seq<Grant>, path: string, selected: seq<string>, list: Lister): (r: seq<Grant>)
    requires BuildsPaths(list)
    ensures |r| == |gs|
    ensures forall i :: 0 <= i < |gs| ==> r[i] == gs[i].(paths := Rescoped(gs[i], path, selected, list))
  {
    if gs == [] then []
    else [gs[0].(paths := Rescoped(gs[0], path, selected, list))] + RescopedAll(gs[1..], path, selected, list)
  }

  // ---- Restarts ----

  predicate AllowsSomething(g: Grant) { g.allowFiles || g.allowPrint }

  datatype Permissions = Permissions(paths: seq<string>, allowFiles: bool, allowPrint: bool)

  /** A grant read back from the file. It differs from the one in memory only if
      its last update was rejected: that one was applied and not saved. */
  function ReloadOne(g: Grant, file: map<string, Permissions>): Grant {
    if AllowsSomething(g) || g.fingerprint !in file then g
    else
      var p := file[g.fingerprint];
      g.(paths := p.paths, allowFiles := p.allowFiles, allowPrint := p.allowPrint)
  }

  function Reloaded(gs: seq<Grant>, file: map<string, Permissions>): (r: seq<Grant>)
    ensures |r| == |gs|
    ensures forall i :: 0 <= i < |gs| ==> r[i] == ReloadOne(gs[i], file)
  {
    if gs == [] then [] else [ReloadOne(gs[0], file)] + Reloaded(gs[1..], file)
  }

  // ---- Signed requests ----

  datatype SignedRequest = SignedRequest(
    verb: string, pathQ: string, body: string,
    node: Option<string>, pub: Option<string>, ts: Option<string>, nonce: Option<string>, sig: Option<string>)

  datatype AuthError =
    | Unauthenticated | BadTimestamp | ClockSkew | BadRequestSignature | Replayed
    | StillPending | WasDenied | UnknownNode | Expired | BadKeyHeader | IdentityChanged

  datatype Auth<T> = Ok(value: T) | Err(error: AuthError)

  datatype Caller = Caller(node: string, pub: string, sig: string)

  function AbsDiff(a: nat, b: nat): nat {
    if a < b then b - a else a - b
  }

  function Signed(r: SignedRequest, ts: nat): string {
    RequestString(r.verb, r.pathQ, ts, if r.nonce.Some? then r.nonce.value else "", r.body)
  }

  function VerifySigned(c: Crypto, r: SignedRequest, now: nat): Auth<Caller> {
    if r.node.None? || r.pub.None? || r.ts.None? || r.sig.None? then Err(Unauthenticated)
    else
      var ts := Parse(r.ts.value, 10);
      if ts.None? then Err(BadTimestamp)
      else if AbsDiff(now, ts.value) > MAX_SKEW_SECS then Err(ClockSkew)
      else if !c.verify(r.pub.value, Signed(r, ts.value), r.sig.value) then Err(BadRequestSignature)
      else Ok(Caller(r.node.value, r.pub.value, r.sig.value))
  }

  function Fresh(seen: map<string, nat>, now: nat): map<string, nat> {
    map s | s in seen && (if now < seen[s] then 0 else now - seen[s]) <= MAX_SKEW_SECS :: seen[s]
  }

  /** The signature passes the replay check. */
  predicate NotReplayed(seen: map<string, nat>, sig: string, now: nat) {
    sig !in Fresh(seen, now)
  }

  /** A verified signature is recorded whether or not it passed. */
  function AfterSeeing(c: Crypto, s: State, r: SignedRequest, now: nat): State {
    var v := VerifySigned(c, r, now);
    if v.Err? then s else s.(seen := Fresh(s.seen, now)[v.value.sig := now])
  }

  function MissingGrant(s: State, node: string): AuthError {
    if node in s.pending then StillPending
    else if node in s.decisions && s.decisions[node].response.status == Denied then WasDenied
    else UnknownNode
  }

  function RequireAuth(c: Crypto, s: State, r: SignedRequest, now: nat): Auth<Grant> {
    var v := VerifySigned(c, r, now);
    if v.Err? then Err(v.error)
    else if !NotReplayed(s.seen, v.value.sig, now) then Err(Replayed)
    else
      var g := FindByNode(s.grants, v.value.node);
      if g.None? then Err(MissingGrant(s, v.value.node))
      else if !Live(g.value, now) then Err(Expired)
      else if c.fingerprint(v.value.pub).None? then Err(BadKeyHeader)
      else if c.fingerprint(v.value.pub).value != g.value.fingerprint then Err(IdentityChanged)
      else Ok(g.value)
  }

  datatype PollReply = Status(response: StatusResponse) | Refused(error: AuthError) | NotYours | PollBadKey | PollWrongNode

  /** A signed poll needs no grant, only the key that the queried node id was cut from. */
  function PollReplyTo(c: Crypto, s: State, r: SignedRequest, queried: string, now: nat): PollReply
    requires Digests(c)
  {
    var v := VerifySigned(c, r, now);
    if v.Err? then Refused(v.error)
    else if !NotReplayed(s.seen, v.value.sig, now) then Refused(Replayed)
    else if v.value.node != queried then NotYours
    else
      var fp := c.fingerprint(v.value.pub);
      if fp.None? then PollBadKey
      else if NodeIdOf(fp.value) != queried then PollWrongNode
      else Status(StatusLookup(s, queried, now))
  }

  // ---- Steps and runs ----

  datatype Step =
    | Pair(req: PairRequest)
    | Decide(decision: Decision)
    | Revoke(fingerprint: string)
    | Update(update: GrantUpdate)
    | Rescope(path: string, selected: seq<string>, listings: Tree)
    | Sweep
    | Restart(file: map<string, Permissions>)
    | Request(signed: SignedRequest)
    | Poll(signed: SignedRequest, queried: string)
    | Notified(node: string, response: StatusResponse)

  datatype Event = Event(now: nat, step: Step)

  ghost predicate Next(c: Crypto, s: State, ev: Event, s': State)
    requires Digests(c)
  {
    match ev.step
    case Pair(req) => s' == AfterPair(c, s, req, ev.now)
    case Decide(d) => DecideStep(c, s, d, ev.now, s')
    case Revoke(fp) => s' == s.(grants := Without(s.grants, fp))
    case Update(u) => s' == s.(grants := Updated(s.grants, u))
    case Rescope(path, selected, listings) =>
      && BuildsPaths(ListTree(listings))
      && s' == s.(grants := RescopedAll(s.grants, path, selected, ListTree(listings)))
    case Sweep => s' == s.(grants := LiveGrants(s.grants, ev.now))
    case Restart(file) => s' == INITIAL.(grants := Reloaded(s.grants, file))
    case Request(r) => s' == AfterSeeing(c, s, r, ev.now)
    case Poll(r, _) => s' == AfterSeeing(c, s, r, ev.now)
    case Notified(node, resp) =>
      s' == s.(decisions := s'.decisions) && Remembers(s.decisions, node, resp, ev.now, s'.decisions)
  }

  ghost predicate NonDecreasing(log: seq<Event>) {
    forall i, j :: 0 <= i <= j < |log| ==> log[i].now <= log[j].now
  }

  /** Step `i` of the log leads from state `i` to the next. */
  ghost predicate StepAt(c: Crypto, states: seq<State>, log: seq<Event>, i: nat)
    requires Digests(c) && i < |log| < |states|
  {
    Next(c, states[i], log[i], states[i + 1])
  }

  /** `states` are the states a run of `log` passes through, starting at `states[0]`. */
  ghost predicate Follows(c: Crypto, states: seq<State>, log: seq<Event>)
    requires Digests(c)
  {
    && |states| == |log| + 1
    && NonDecreasing(log)
    && forall i {:trigger StepAt(c, states, log, i)} :: 0 <= i < |log| ==> StepAt(c, states, log, i)
  }

  ghost predicate Run(c: Crypto, states: seq<State>, log: seq<Event>)
    requires Digests(c)
  {
    Follows(c, states, log) && states[0] == INITIAL
  }

  // ---- What a step does to one part of the state ----

  /** The step puts a request on the queue, or tries to. */
  predicate Queues(c: Crypto, s: State, ev: Event)
    requires Digests(c)
  {
    && ev.step.Pair? && Genuine(c, ev.step.req)
    && !HasLiveGrant(s, c.fingerprint(ev.step.req.pubkey).value, ev.now)
  }

  /** The owner is told of an admitted request whose node was not waiting yet. */
  predicate Announces(c: Crypto, s: State, ev: Event)
    requires Digests(c)
  {
    && Queues(c, s, ev) && ev.step.req.nodeId !in s.pending
    && !QueueFull(Pruned(s.pending, ev.now), ev.step.req.nodeId)
  }

  function PendingAfter(c: Crypto, s: State, ev: Event): map<string, PendingEntry>
    requires Digests(c)
  {
    if Queues(c, s, ev) then Queued(s.pending, ev.step.req, ev.now)
    else if ev.step.Decide? then s.pending - {ev.step.decision.node}
    else if ev.step.Restart? then map[]
    else s.pending
  }

  lemma StepPending(c: Crypto, states: seq<State>, log: seq<Event>, i: nat)
    requires Digests(c) && Follows(c, states, log) && i < |log|
    ensures states[i + 1].pending == PendingAfter(c, states[i], log[i])
  {
    assert StepAt(c, states, log, i);
  }

  /** The signed request the step carries, if any. */
  function Carried(step: Step): Option<SignedRequest> {
    match step
    case Request(r) => Some(r)
    case Poll(r, _) => Some(r)
    case _ => None
  }

  function SeenAfter(c: Crypto, s: State, ev: Event): map<string, nat> {
    if Carried(ev.step).Some? then AfterSeeing(c, s, Carried(ev.step).value, ev.now).seen
    else if ev.step.Restart? then map[]
    else s.seen
  }

  lemma StepSeen(c: Crypto, states: seq<State>, log: seq<Event>, i: nat)
    requires Digests(c) && Follows(c, states, log) && i < |log|
    ensures states[i + 1].seen == SeenAfter(c, states[i], log[i])
  {
    assert StepAt(c, states, log, i);
  }
}
