/** The daemon's mutable state and its handlers, each one step of the state machine. */
module Daemon {
  import opened Options
  import opened Canonical
  import opened Grants
  import opened Access
  import opened ShareTree
  import opened ShareItem
  import Events

  /** The id in groups of four, as people read it to each other. */
  function GroupHex(id: string): string {
    if |id| <= 4 then id else id[..4] + "-" + GroupHex(id[4..])
  }

  function PairNotice(req: PairRequest, id: nat, now: nat): Events.Event {
    Events.Event(id, "pair-request", req.name + " wants access to your files",
                 "Approve or deny it in the Incoming list. DocLink ID " + GroupHex(req.nodeId) + ".", now)
  }

  /** What the owner reads about a request: who asks, and the id in four groups. */
  lemma PairNoticeTells(req: PairRequest, id: nat, now: nat)
    requires |req.nodeId| == 16
    ensures var n := PairNotice(req, id, now);
            && n.id == id && n.kind == "pair-request" && n.unix == now
            && n.title == req.name + " wants access to your files"
            && n.body == "Approve or deny it in the Incoming list. DocLink ID "
                         + (req.nodeId[..4] + "-" + (req.nodeId[4..8] + "-" + (req.nodeId[8..12] + "-" + req.nodeId[12..]))) + "."
  {
    var a := req.nodeId;
    assert a[4..][4..] == a[8..] && a[4..][..4] == a[4..8] && a[8..][4..] == a[12..] && a[8..][..4] == a[8..12];
    assert GroupHex(a[8..]) == a[8..12] + "-" + GroupHex(a[12..]);
    assert GroupHex(a[4..]) == a[4..8] + "-" + GroupHex(a[8..]);
  }

  class Node {
    const crypto: Crypto
    const store: GrantStore
    const feed: Events.Feed
    var pending: map<string, PendingEntry>
    var decisions: map<string, Remembered>
    var seen: map<string, nat>

    constructor (c: Crypto, s: GrantStore, f: Events.Feed)
      ensures crypto == c && store == s && feed == f
      ensures pending == map[] && decisions == map[] && seen == map[]
    {
      crypto, store, feed := c, s, f;
      pending, decisions, seen := map[], map[], map[];
    }

    ghost function View(): State
      reads this, store
    {
      State(store.grants, pending, decisions, seen)
    }

    method PrunePending(now: nat)
      modifies this`pending
      ensures pending == Pruned(old(pending), now)
    {
      pending := map n | n in pending && pending[n].received > Cutoff(now) :: pending[n];
    }

    /** False when the queue is full even after stale requests were dropped. */
    method AdmitPending(req: PairRequest, now: nat) returns (admitted: bool)
      modifies this`pending
      ensures admitted == !QueueFull(Pruned(old(pending), now), req.nodeId)
      ensures pending == if admitted then Pruned(old(pending), now)[req.nodeId := PendingEntry(req, now)]
                         else Pruned(old(pending), now)
    {
      PrunePending(now);
      if req.nodeId !in pending && |pending| >= MAX_PENDING { return false; }
      pending := pending[req.nodeId := PendingEntry(req, now)];
      return true;
    }

    /** The owner is told of a request that was not waiting already. */
    method PairRequest(req: PairRequest, now: nat) returns (reply: PairReply)
      requires Digests(crypto) && feed.Valid()
      modifies this`pending, feed`nextId, feed`items, feed`history
      ensures feed.Valid()
      ensures Next(crypto, old(View()), Event(now, Pair(req)), View())
      ensures reply == PairReplyTo(crypto, old(View()), req, now)
      ensures feed.history == old(feed.history)
              + if Announces(crypto, old(View()), Event(now, Pair(req)))
                then [PairNotice(req, |old(feed.history)| + 1, now)] else []
    {
      if !crypto.verify(req.pubkey, PairString(req), req.signature) { return BadSignature; }
      var fp := crypto.fingerprint(req.pubkey);
      if fp.None? { return BadKey; }
      if fp.value[..NODE_ID_LEN] != req.nodeId { return WrongNodeId; }
      var existing := FindByFingerprint(store.grants, fp.value);
      if existing.Some? && Live(existing.value, now) {
        return Answer(StatusResponse(Approved, existing.value.expires));
      }
      reply := Enqueue(req, now);
    }

    /** Queue the request, and tell the owner if its node was not waiting yet. */
    method Enqueue(req: PairRequest, now: nat) returns (reply: PairReply)
      requires feed.Valid()
      modifies this`pending, feed`nextId, feed`items, feed`history
      ensures feed.Valid()
      ensures pending == Queued(old(pending), req, now)
      ensures var full := QueueFull(Pruned(old(pending), now), req.nodeId);
              && reply == (if full then TooMany else Answer(StatusResponse(Pending, None)))
              && feed.history == old(feed.history)
                 + if !full && req.nodeId !in old(pending) then [PairNotice(req, |old(feed.history)| + 1, now)] else []
    {
      var isNew := req.nodeId !in pending;
      var admitted := AdmitPending(req, now);
      if !admitted { return TooMany; }
      if isNew {
        var ev := feed.Push("pair-request", req.name + " wants access to your files",
                            "Approve or deny it in the Incoming list. DocLink ID " + GroupHex(req.nodeId) + ".", now);
      }
      return Answer(StatusResponse(Pending, None));
    }

    method OldestDecision() returns (oldest: string)
      requires decisions != map[]
      ensures IsOldest(decisions, oldest)
    {
      var todo := decisions.Keys;
      oldest :| oldest in todo;
      todo := todo - {oldest};
      while todo != {}
        invariant oldest in decisions && oldest !in todo && todo <= decisions.Keys
        invariant forall n :: n in decisions && n !in todo ==> decisions[oldest].at <= decisions[n].at
        decreases todo
      {
        var n :| n in todo;
        todo := todo - {n};
        if decisions[n].at < decisions[oldest].at { oldest := n; }
      }
    }

    method RememberDecision(node: string, resp: StatusResponse, now: nat)
      modifies this`decisions
      ensures Remembers(old(decisions), node, resp, now, decisions)
    {
      if node !in decisions && |decisions| >= MAX_DECISIONS {
        var oldest := OldestDecision();
        decisions := decisions - {oldest};
      }
      decisions := decisions[node := Remembered(resp, now)];
    }

    method ApplyDecision(d: Decision, now: nat) returns (reply: DecisionReply)
      requires Digests(crypto)
      modifies this`pending, this`decisions, store
      ensures Next(crypto, old(View()), Event(now, Decide(d)), View())
      ensures reply == DecisionReplyTo(crypto, old(View()), d, now)
    {
      if d.node !in pending { return NoPendingRequest; }
      var req := pending[d.node].request;
      pending := pending - {d.node};
      if d.verdict != "approve" {
        RememberDecision(d.node, StatusResponse(Denied, None), now);
        return Decided(StatusResponse(Denied, None));
      }
      var expires := if d.duration == 0 then None else Some(now + d.duration);
      var allowFiles := if d.allowFiles.Some? then d.allowFiles.value else true;
      var allowPrint := if d.allowPrint.Some? then d.allowPrint.value else false;
      if !allowFiles && !allowPrint { return NoPermission; }
      var fp := crypto.fingerprint(req.pubkey);
      if fp.None? { return NoFingerprint; }
      var grant := Grant(fp.value, req.nodeId, req.name, now, expires, [], allowFiles, allowPrint);
      store.grants := Without(store.grants, grant.fingerprint) + [grant];
      return Decided(StatusResponse(Approved, expires));
    }

    method RevokeGrant(fingerprint: string) returns (found: bool)
      requires Digests(crypto)
      modifies store
      ensures forall now :: Next(crypto, old(View()), Event(now, Revoke(fingerprint)), View())
      ensures found <==> exists g :: g in old(store.grants) && g.fingerprint == fingerprint
    {
      var before := |store.grants|;
      store.grants := Without(store.grants, fingerprint);
      WithoutShrinksIff(old(store.grants), fingerprint);
      found := |store.grants| != before;
    }

    /** The grant is rewritten before the permissions are checked. */
    method UpdateGrant(u: GrantUpdate) returns (reply: UpdateReply)
      requires Digests(crypto)
      modifies store
      ensures forall now :: Next(crypto, old(View()), Event(now, Update(u)), View())
      ensures reply == UpdateReplyTo(old(View()), u)
    {
      var g := FindByFingerprint(store.grants, u.fingerprint);
      if g.None? {
        UpdateOfAbsent(store.grants, u);
        return UnknownGrant;
      }
      store.grants := Updated(store.grants, u);
      var info := UpdateOne(g.value, u);
      if !info.allowFiles && !info.allowPrint { return NothingAllowed; }
      return Changed(info);
    }

    /** Item-centric sharing; `listings` are the directories that can be listed. */
    method ShareOne(path: string, selected: seq<string>, resolves: string -> bool, listings: Tree) returns (r: Outcome)
      requires Digests(crypto) && BuildsPaths(ListTree(listings))
      modifies store
      ensures r == if path == "" then IsRoot else if !resolves(path) then NotFound else Shared
      ensures r.Shared? ==> forall now :: Next(crypto, old(View()), Event(now, Rescope(path, selected, listings)), View())
      ensures !r.Shared? ==> View() == old(View())
    {
      r := Share(store, path, selected, resolves, ListTree(listings));
      assert r.Shared? ==> store.grants == RescopedAll(old(store.grants), path, selected, ListTree(listings));
    }

    /** One tick of the expiry sweeper: announce, then drop. */
    method SweepExpired(now: nat) returns (changed: bool)
      requires Digests(crypto) && feed.Valid()
      modifies store, feed
      ensures feed.Valid()
      ensures Next(crypto, old(View()), Event(now, Sweep), View())
      ensures changed <==> exists g :: g in old(store.grants) && g.expires.Some? && g.expires.value <= now
      ensures feed.history == old(feed.history)
              + Events.Notices(old(store.grants), now, old(feed.announced), |old(feed.history)| + 1)
    {
      feed.AnnounceExpiring(store.grants, now);
      changed := DropExpired(now);
    }

    method DropExpired(now: nat) returns (changed: bool)
      modifies store
      ensures store.grants == LiveGrants(old(store.grants), now)
      ensures changed <==> exists g :: g in old(store.grants) && g.expires.Some? && g.expires.value <= now
    {
      var before := |store.grants|;
      LiveShrinksIff(store.grants, now);
      store.grants := LiveGrants(store.grants, now);
      changed := |store.grants| != before;
    }

    /** The process ends and a new one opens the store; `file` is what the store's
        file says about grants whose last update was rejected. */
    method Reopen(file: map<string, Permissions>) returns (n: Node)
      requires Digests(crypto)
      modifies store
      ensures fresh(n) && n.store == store && n.crypto == crypto
      ensures fresh(n.feed) && n.feed.Valid() && n.feed.history == []
      ensures forall now :: Next(crypto, old(View()), Event(now, Restart(file)), n.View())
    {
      store.grants := Reloaded(store.grants, file);
      var f := new Events.Feed();
      n := new Node(crypto, store, f);
    }

    method RejectReplays(sig: string, now: nat) returns (ok: bool)
      modifies this`seen
      ensures ok == NotReplayed(old(seen), sig, now)
      ensures seen == Fresh(old(seen), now)[sig := now]
    {
      seen := map s | s in seen && (if now < seen[s] then 0 else now - seen[s]) <= MAX_SKEW_SECS :: seen[s];
      ok := sig !in seen;
      seen := seen[sig := now];
    }

    method Authenticate(r: SignedRequest, now: nat) returns (reply: Auth<Grant>)
      requires Digests(crypto)
      modifies this`seen
      ensures Next(crypto, old(View()), Event(now, Request(r)), View())
      ensures reply == RequireAuth(crypto, old(View()), r, now)
    {
      var v := VerifySigned(crypto, r, now);
      if v.Err? { return Err(v.error); }
      var caller := v.value;
      var ok := RejectReplays(caller.sig, now);
      if !ok { return Err(Replayed); }
      var g := FindByNode(store.grants, caller.node);
      if g.None? {
        if caller.node in pending { return Err(StillPending); }
        if caller.node in decisions && decisions[caller.node].response.status == Denied { return Err(WasDenied); }
        return Err(UnknownNode);
      }
      if g.value.expires.Some? && g.value.expires.value <= now { return Err(Expired); }
      var fp := crypto.fingerprint(caller.pub);
      if fp.None? { return Err(BadKeyHeader); }
      if fp.value != g.value.fingerprint { return Err(IdentityChanged); }
      return Ok(g.value);
    }

    method PollStatus(r: SignedRequest, queried: string, now: nat) returns (reply: PollReply)
      requires Digests(crypto)
      modifies this`seen
      ensures Next(crypto, old(View()), Event(now, Poll(r, queried)), View())
      ensures reply == PollReplyTo(crypto, old(View()), r, queried, now)
    {
      var v := VerifySigned(crypto, r, now);
      if v.Err? { return Refused(v.error); }
      var ok := RejectReplays(v.value.sig, now);
      if !ok { return Refused(Replayed); }
      if v.value.node != queried { return NotYours; }
      var fp := crypto.fingerprint(v.value.pub);
      if fp.None? { return PollBadKey; }
      if fp.value[..NODE_ID_LEN] != queried { return PollWrongNode; }
      if queried in pending { return Status(StatusResponse(Pending, None)); }
      if queried in decisions { return Status(decisions[queried].response); }
      var g := FindByNode(LiveGrants(store.grants, now), queried);
      if g.Some? { return Status(StatusResponse(Approved, g.value.expires)); }
      return Status(StatusResponse(Unknown, None));
    }
  }
}
