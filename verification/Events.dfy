/** The notification ring, its poller, and expiry announcements. */
module Events {
  import opened Options
  import opened Grants

  const CAP: nat := 100
  const EXPIRING_SOON_SECS: nat := 24 * 3600

  datatype Event = Event(id: nat, kind: string, title: string, body: string, unix: nat)

  datatype Claim = Claim(fingerprint: string, expires: nat)

  /** Ids count up from 1 in one daemon lifetime. */
  ghost predicate Numbered(history: seq<Event>) {
    forall i :: 0 <= i < |history| ==> history[i].id == i + 1
  }

  /** The newest 100 events. */
  function Recent(history: seq<Event>): seq<Event> {
    if |history| <= CAP then history else history[|history| - CAP..]
  }

  /** What is left of the history for a reader who has seen `since` events. */
  function Unread(history: seq<Event>, since: nat): seq<Event> {
    if since >= |history| then []
    else if |history| - since <= CAP then history[since..]
    else history[|history| - CAP..]
  }

  function After(items: seq<Event>, since: nat): seq<Event> {
    if items == [] then []
    else if items[0].id > since then [items[0]] + After(items[1..], since)
    else After(items[1..], since)
  }

  function Tail(history: seq<Event>, i: nat): seq<Event> {
    if i < |history| then history[i..] else []
  }

  lemma {:induction false} AfterIsSuffix(history: seq<Event>, k: nat, since: nat)
    requires Numbered(history) && k <= |history|
    ensures After(history[k..], since) == Tail(history, if since <= k then k else since)
    decreases |history| - k
  {
    if k < |history| {
      AfterOne(history, k, since);
      AfterIsSuffix(history, k + 1, since);
      assert history[k..] == [history[k]] + history[k + 1..];
    }
  }

  lemma AfterOne(history: seq<Event>, k: nat, since: nat)
    requires Numbered(history) && k < |history|
    ensures After(history[k..], since) ==
            if since <= k then [history[k]] + After(history[k + 1..], since) else After(history[k + 1..], since)
  {
    assert history[k..][0] == history[k] && history[k..][1..] == history[k + 1..];
  }

  lemma UnreadIsTail(history: seq<Event>, since: nat)
    ensures var k := if |history| <= CAP then 0 else |history| - CAP;
            Recent(history) == history[k..] && Unread(history, since) == Tail(history, if since <= k then k else since)
  {
  }

  /** Filtering the ring yields exactly the unread part of the whole history. */
  lemma RingAnswersFromHistory(history: seq<Event>, since: nat)
    requires Numbered(history)
    ensures After(Recent(history), since) == Unread(history, since)
  {
    UnreadIsTail(history, since);
    AfterIsSuffix(history, if |history| <= CAP then 0 else |history| - CAP, since);
  }

  predicate Due(g: Grant, now: nat) {
    g.expires.Some? && g.expires.value > now && g.expires.value - now <= EXPIRING_SOON_SECS
  }

  function ClaimOf(g: Grant): Claim
    requires g.expires.Some?
  {
    Claim(g.fingerprint, g.expires.value)
  }

  /** The claims one sweep makes, in the order of the grants. */
  function NewClaims(gs: seq<Grant>, now: nat, announced: set<Claim>): seq<Claim> {
    if gs == [] then []
    else if Due(gs[0], now) && ClaimOf(gs[0]) !in announced then
      [ClaimOf(gs[0])] + NewClaims(gs[1..], now, announced + {ClaimOf(gs[0])})
    else NewClaims(gs[1..], now, announced)
  }

  function Notice(g: Grant, id: nat, now: nat): Event {
    Event(id, "grant-expiring", "Access for " + g.name + " expires soon",
          "Renew it from Granted access, or let it lapse.", now)
  }

  /** The events that go with those claims, numbered from `id`. */
  function Notices(gs: seq<Grant>, now: nat, announced: set<Claim>, id: nat): (r: seq<Event>)
    ensures |r| == |NewClaims(gs, now, announced)|
  {
    if gs == [] then []
    else if Due(gs[0], now) && ClaimOf(gs[0]) !in announced then
      [Notice(gs[0], id, now)] + Notices(gs[1..], now, announced + {ClaimOf(gs[0])}, id + 1)
    else Notices(gs[1..], now, announced, id)
  }

  function Members(cs: seq<Claim>): set<Claim> { set c | c in cs }

  class Feed {
    var nextId: nat
    var items: seq<Event>
    var announced: set<Claim>
    ghost var history: seq<Event>

    /** The ring holds the last min(100, n) of all n events, ids without a gap. */
    ghost predicate Valid()
      reads this
    {
      nextId == |history| && Numbered(history) && items == Recent(history)
    }

    constructor ()
      ensures Valid() && history == [] && announced == {}
    {
      nextId, items, announced, history := 0, [], {}, [];
    }

    method Push(kind: string, title: string, body: string, now: nat) returns (ev: Event)
      requires Valid()
      modifies this`nextId, this`items, this`history
      ensures Valid()
      ensures ev == Event(|old(history)| + 1, kind, title, body, now)
      ensures history == old(history) + [ev]
    {
      nextId := nextId + 1;
      ev := Event(nextId, kind, title, body, now);
      items := items + [ev];
      history := history + [ev];
      ghost var k := |history| - |items|;
      while |items| > CAP
        invariant k + |items| == |history| && items == history[k..]
        invariant |items| >= CAP || k == 0
        modifies this`items
      {
        items := items[1..];
        k := k + 1;
      }
    }

    method Since(since: nat) returns (r: seq<Event>)
      requires Valid()
      ensures r == Unread(history, since)
    {
      r := After(items, since);
      RingAnswersFromHistory(history, since);
    }

    method ClaimExpiry(fingerprint: string, expires: nat) returns (first: bool)
      modifies this`announced
      ensures first == (Claim(fingerprint, expires) !in old(announced))
      ensures announced == old(announced) + {Claim(fingerprint, expires)}
    {
      first := Claim(fingerprint, expires) !in announced;
      announced := announced + {Claim(fingerprint, expires)};
    }

    /** The sweeper's announcements: one event per new claim. */
    method AnnounceExpiring(gs: seq<Grant>, now: nat)
      requires Valid()
      modifies this
      ensures Valid()
      ensures announced == old(announced) + Members(NewClaims(gs, now, old(announced)))
      ensures history == old(history) + Notices(gs, now, old(announced), |old(history)| + 1)
    {
      SweptIsOrdered(gs, now, Ledger(announced, history));
      AnnounceAll(gs, now);
    }

    method AnnounceAll(gs: seq<Grant>, now: nat)
      requires Valid()
      modifies this
      ensures Valid() && Ledger(announced, history) == Swept(gs, now, old(Ledger(announced, history)))
    {
      ghost var start := Ledger(announced, history);
      var i := 0;
      assert gs[0..] == gs;
      while i < |gs|
        invariant i <= |gs| && Valid()
        invariant Swept(gs[i..], now, Ledger(announced, history)) == Swept(gs, now, start)
      {
        assert gs[i..][1..] == gs[i + 1..];
        AnnounceOne(gs[i], now);
        i := i + 1;
      }
    }

    /** One round of the loop. */
    method AnnounceOne(g: Grant, now: nat)
      requires Valid()
      modifies this
      ensures Valid()
      ensures Ledger(announced, history) == Noted(g, now, old(Ledger(announced, history)))
    {
      if g.expires.Some? && g.expires.value > now && g.expires.value - now <= EXPIRING_SOON_SECS {
        var first := ClaimExpiry(g.fingerprint, g.expires.value);
        if first {
          var ev := Push("grant-expiring", "Access for " + g.name + " expires soon",
                         "Renew it from Granted access, or let it lapse.", now);
        }
      }
    }
  }

  // ---- One sweep ----

  datatype Ledger = Ledger(announced: set<Claim>, history: seq<Event>)

  function Noted(g: Grant, now: nat, b: Ledger): Ledger {
    if Due(g, now) && ClaimOf(g) !in b.announced
    then Ledger(b.announced + {ClaimOf(g)}, b.history + [Notice(g, |b.history| + 1, now)])
    else b
  }

  function Swept(gs: seq<Grant>, now: nat, b: Ledger): Ledger
    decreases |gs|
  {
    if gs == [] then b else Swept(gs[1..], now, Noted(gs[0], now, b))
  }

  /** What a sweep adds: its new claims and, in the same order, their notices. */
  function Added(gs: seq<Grant>, now: nat, b: Ledger): Ledger {
    Ledger(b.announced + Members(NewClaims(gs, now, b.announced)),
           b.history + Notices(gs, now, b.announced, |b.history| + 1))
  }

  lemma AddedOne(gs: seq<Grant>, now: nat, b: Ledger)
    requires gs != []
    ensures Added(gs, now, b) == Added(gs[1..], now, Noted(gs[0], now, b))
  {
    var next := Noted(gs[0], now, b);
    if next != b {
      var claims, notices := NewClaims(gs[1..], now, next.announced), Notices(gs[1..], now, next.announced, |b.history| + 2);
      assert Members([ClaimOf(gs[0])] + claims) == {ClaimOf(gs[0])} + Members(claims);
      assert b.history + ([Notice(gs[0], |b.history| + 1, now)] + notices) == next.history + notices;
    }
  }

  lemma {:induction false} SweptIsOrdered(gs: seq<Grant>, now: nat, b: Ledger)
    ensures Swept(gs, now, b) == Added(gs, now, b)
    decreases |gs|
  {
    if gs != [] {
      AddedOne(gs, now, b);
      SweptIsOrdered(gs[1..], now, Noted(gs[0], now, b));
    } else {
      assert b.history + [] == b.history;
    }
  }

  /** The window shell's cursor; `shown` are the toasts it has raised. */
  class Poller {
    var last: nat
    var primed: bool
    var shown: seq<Event>

    /** A saved cursor of zero means none was saved. */
    constructor (cursor: nat)
      ensures last == cursor && primed == (cursor != 0) && shown == []
    {
      last, primed, shown := cursor, cursor != 0, [];
    }

    /** One successful poll of `feed`. */
    method Poll(feed: Feed)
      requires feed.Valid()
      modifies this
      ensures PollState(last, primed, shown) == Polled(old(PollState(last, primed, shown)), feed.history)
    {
      var events := feed.Since(last);
      UnreadIds(feed.history, last);
      if primed {
        Show(events);
      } else {
        primed := true;
        if events != [] { last := events[|events| - 1].id; }
      }
    }

    /** Raise a toast for each event that is newer than the cursor. */
    method Show(events: seq<Event>)
      requires Ascending(events, last)
      modifies this`last, this`shown
      ensures shown == old(shown) + events
      ensures last == if events == [] then old(last) else events[|events| - 1].id
    {
      var i := 0;
      while i < |events|
        invariant i <= |events| && shown == old(shown) + events[..i]
        invariant Ascending(events[i..], last)
        invariant last == if i == 0 then old(last) else events[i - 1].id
      {
        var e := events[i];
        AscendingTail(events[i..], last);
        assert events[i..][0] == e && events[i..][1..] == events[i + 1..] && events[..i + 1] == events[..i] + [e];
        if e.id > last {
          shown := shown + [e];
          last := e.id;
        }
        i := i + 1;
      }
      assert events[..|events|] == events;
    }
  }

  // ---- What a poll does, as a function of the history ----

  datatype PollState = PollState(last: nat, primed: bool, shown: seq<Event>)

  /** A first poll only adopts the newest id; later ones show what is unread. */
  function Polled(p: PollState, history: seq<Event>): PollState {
    var events := Unread(history, p.last);
    PollState(if events == [] then p.last else |history|, true,
              if p.primed then p.shown + events else p.shown)
  }

  /** Ids grow from event to event, beginning above `since`. */
  predicate Ascending(events: seq<Event>, since: nat) {
    && (forall i :: 0 <= i < |events| ==> events[i].id > since)
    && (forall i, j :: 0 <= i < j < |events| ==> events[i].id < events[j].id)
  }

  lemma AscendingTail(events: seq<Event>, since: nat)
    requires Ascending(events, since) && events != []
    ensures events[0].id > since && Ascending(events[1..], events[0].id)
  {
  }

  lemma UnreadIds(history: seq<Event>, since: nat)
    requires Numbered(history)
    ensures var u := Unread(history, since);
            Ascending(u, since) && (u != [] ==> u[|u| - 1].id == |history|)
  {
  }

  // ---- Whole runs ----

  datatype Step = Publish(kind: string, title: string, body: string, now: nat) | Poll

  datatype System = System(history: seq<Event>, poller: PollState)

  function Next(s: System, step: Step): System {
    match step
    case Publish(kind, title, body, now) =>
      s.(history := s.history + [Event(|s.history| + 1, kind, title, body, now)])
    case Poll => s.(poller := Polled(s.poller, s.history))
  }

  function Exec(s: System, steps: seq<Step>): System
    decreases |steps|
  {
    if steps == [] then s else Exec(Next(s, steps[0]), steps[1..])
  }

  /** Ids stay consecutive over every run. */
  lemma {:induction false} StaysNumbered(s: System, steps: seq<Step>)
    requires Numbered(s.history)
    ensures Numbered(Exec(s, steps).history)
    decreases |steps|
  {
    if steps != [] { StaysNumbered(Next(s, steps[0]), steps[1..]); }
  }

  /** No poll comes when more than 100 events are unread. */
  predicate NeverOverrun(s: System, steps: seq<Step>)
    decreases |steps|
  {
    steps != [] ==>
      && (steps[0].Poll? ==> |s.history| <= s.poller.last + 100)
      && NeverOverrun(Next(s, steps[0]), steps[1..])
  }

  /** The events between two cursor positions; none if the cursor did not move. */
  function Between(history: seq<Event>, from: nat, to: nat): seq<Event> {
    if from < to <= |history| then history[from..to] else []
  }

  /** The cursor only moves forward, never past the history, and up to it at each
      poll; it counts the events shown exactly as long as no poll is overrun. */
  lemma {:induction false} Progress(s: System, steps: seq<Step>)
    requires s.poller.primed
    ensures var e := Exec(s, steps);
            && s.history <= e.history && e.poller.primed
            && s.poller.last <= e.poller.last && (e.poller.last == s.poller.last || e.poller.last <= |e.history|)
            && |s.poller.shown| <= |e.poller.shown|
            && |e.poller.shown| - |s.poller.shown| <= e.poller.last - s.poller.last
            && (|e.poller.shown| - |s.poller.shown| == e.poller.last - s.poller.last <==> NeverOverrun(s, steps))
            && (steps != [] && steps[|steps| - 1].Poll? ==> e.poller.last >= |e.history|)
    decreases |steps|
  {
    if steps != [] { Progress(Next(s, steps[0]), steps[1..]); }
  }

  lemma BetweenJoins(h: seq<Event>, a: nat, b: nat, c: nat)
    requires a <= b <= c && (b == a || b <= |h|) && (c == b || c <= |h|)
    ensures Between(h, a, b) + Between(h, b, c) == Between(h, a, c)
  {
    if a < b < c { assert h[a..b] + h[b..c] == h[a..c]; }
  }

  lemma PollShows(s: System, h: seq<Event>)
    requires s.poller.primed && |s.history| <= s.poller.last + CAP && s.history <= h
    ensures var n := Next(s, Poll);
            n.poller.shown == s.poller.shown + Between(h, s.poller.last, n.poller.last)
  {
    var n := Next(s, Poll);
    if s.poller.last < |s.history| { assert h[s.poller.last..|s.history|] == s.history[s.poller.last..]; }
  }

  lemma {:induction false} ShowsInOrder(s: System, steps: seq<Step>)
    requires s.poller.primed && NeverOverrun(s, steps)
    ensures var e := Exec(s, steps);
            e.poller.shown == s.poller.shown + Between(e.history, s.poller.last, e.poller.last)
    decreases |steps|
  {
    if steps != [] {
      var n := Next(s, steps[0]);
      ShowsInOrder(n, steps[1..]);
      Progress(n, steps[1..]);
      var e := Exec(s, steps);
      if steps[0].Poll? {
        PollShows(s, e.history);
        BetweenJoins(e.history, s.poller.last, n.poller.last, e.poller.last);
      }
    }
  }

  /** A primed poller, wherever its cursor stands, shows every event between its
      first and its last cursor position exactly once and in order, if and only if
      it never polls with more than 100 events unread; a run that ends in a poll
      leaves nothing beyond the cursor. */
  lemma DeliveryIsExactIff(s: System, steps: seq<Step>)
    requires s.poller.primed
    ensures var e := Exec(s, steps);
            && s.poller.last <= e.poller.last
            && (steps != [] && steps[|steps| - 1].Poll? ==> e.poller.last >= |e.history|)
            && (e.poller.shown == s.poller.shown + Between(e.history, s.poller.last, e.poller.last)
                <==> NeverOverrun(s, steps))
  {
    Progress(s, steps);
    if NeverOverrun(s, steps) { ShowsInOrder(s, steps); }
  }

  /** A restarted daemon numbers its events from 1 again while the saved cursor
      stays. Polled often enough, and at the end, the poller shows exactly the
      events numbered beyond the old cursor: all of them if and only if the cursor
      was 0 or nothing was published. */
  lemma RestartHidesCursorManyEvents(s: System, steps: seq<Step>)
    requires s.poller.primed && s.history == [] && NeverOverrun(s, steps)
    requires steps != [] && steps[|steps| - 1].Poll?
    ensures var e := Exec(s, steps);
            && e.poller.shown == s.poller.shown + (if s.poller.last <= |e.history| then e.history[s.poller.last..] else [])
            && (e.poller.shown == s.poller.shown + e.history <==> s.poller.last == 0 || e.history == [])
  {
    Progress(s, steps);
    ShowsInOrder(s, steps);
    var e := Exec(s, steps);
    if s.poller.last <= |e.history| {
      assert Between(e.history, s.poller.last, e.poller.last) == e.history[s.poller.last..];
    }
    assert e.history[0..] == e.history;
  }

  /** A poller without a cursor takes up at the newest event: its first poll shows
      nothing, and from then on it shows exactly what is published later. */
  lemma FirstPollSkipsHistory(s: System, steps: seq<Step>)
    requires !s.poller.primed && s.poller.last == 0
    requires NeverOverrun(Next(s, Poll), steps) && steps != [] && steps[|steps| - 1].Poll?
    ensures Next(s, Poll).poller.shown == s.poller.shown
    ensures var e := Exec(Next(s, Poll), steps);
            s.history <= e.history && e.poller.shown == s.poller.shown + e.history[|s.history|..]
  {
    var n := Next(s, Poll);
    FirstPoll(s);
    Progress(n, steps);
    ShowsInOrder(n, steps);
    var e := Exec(n, steps);
    assert Between(e.history, |s.history|, e.poller.last) == e.history[|s.history|..];
  }

  lemma FirstPoll(s: System)
    requires !s.poller.primed && s.poller.last == 0
    ensures Next(s, Poll) == s.(poller := PollState(|s.history|, true, s.poller.shown))
  {
  }

  // ---- Announcements over many sweeps ----

  datatype Tick = Tick(grants: seq<Grant>, now: nat)

  function ClaimsOver(ticks: seq<Tick>, announced: set<Claim>): seq<Claim> {
    if ticks == [] then []
    else
      var first := NewClaims(ticks[0].grants, ticks[0].now, announced);
      first + ClaimsOver(ticks[1..], announced + Members(first))
  }

  predicate NoRepeats(cs: seq<Claim>) {
    forall i, j :: 0 <= i < j < |cs| ==> cs[i] != cs[j]
  }

  lemma NoRepeatsConcat(a: seq<Claim>, b: seq<Claim>)
    requires NoRepeats(a) && NoRepeats(b) && forall c :: c in b ==> c !in a
    ensures NoRepeats(a + b)
  {
    forall i, j | 0 <= i < j < |a + b| ensures (a + b)[i] != (a + b)[j] {
      if i < |a| <= j { assert b[j - |a|] in b; }
    }
  }

  /** The grant expires at `e`, within a day from `now`. */
  predicate LastDay(g: Grant, e: nat, now: nat) {
    g.expires == Some(e) && now < e <= now + 86_400
  }

  /** Each notice of a sweep goes with one of its claims and tells of that grant. */
  lemma {:induction false} NoticesTell(gs: seq<Grant>, now: nat, announced: set<Claim>, id: nat, i: nat)
    returns (g: Grant, e: nat)
    requires i < |NewClaims(gs, now, announced)|
    ensures g in gs && LastDay(g, e, now) && NewClaims(gs, now, announced)[i] == Claim(g.fingerprint, e)
    ensures Notices(gs, now, announced, id)[i] ==
            Event(id + i, "grant-expiring", "Access for " + g.name + " expires soon",
                  "Renew it from Granted access, or let it lapse.", now)
  {
    if Due(gs[0], now) && ClaimOf(gs[0]) !in announced {
      if i == 0 {
        g, e := gs[0], gs[0].expires.value;
      } else {
        g, e := NoticesTell(gs[1..], now, announced + {ClaimOf(gs[0])}, id + 1, i - 1);
      }
    } else {
      g, e := NoticesTell(gs[1..], now, announced, id, i);
    }
  }

  lemma {:induction false} SweepClaims(gs: seq<Grant>, now: nat, announced: set<Claim>)
    ensures var cs := NewClaims(gs, now, announced);
            && NoRepeats(cs)
            && (forall c :: c in cs ==> c !in announced)
            && (forall g, e :: g in gs && LastDay(g, e, now) ==>
                  Claim(g.fingerprint, e) in announced || Claim(g.fingerprint, e) in cs)
            && (forall c :: c in cs ==> exists g :: g in gs && LastDay(g, c.expires, now) && c.fingerprint == g.fingerprint)
  {
    if gs != [] {
      var g := gs[0];
      if Due(g, now) && ClaimOf(g) !in announced {
        assert LastDay(g, g.expires.value, now);
        SweepClaims(gs[1..], now, announced + {ClaimOf(g)});
      } else {
        SweepClaims(gs[1..], now, announced);
      }
    }
  }

  /** Over any run of sweeps each (fingerprint, expiry) pair is announced at
      most once, every grant seen in its last day has been announced, and nothing
      else is. */
  lemma {:induction false} AnnouncedExactlyOnce(ticks: seq<Tick>, announced: set<Claim>)
    ensures var cs := ClaimsOver(ticks, announced);
            && NoRepeats(cs)
            && (forall c :: c in cs ==> c !in announced)
            && (forall t, g, e :: t in ticks && g in t.grants && LastDay(g, e, t.now) ==>
                  Claim(g.fingerprint, e) in announced || Claim(g.fingerprint, e) in cs)
            && (forall c :: c in cs ==> exists t, g :: t in ticks && g in t.grants && LastDay(g, c.expires, t.now)
                                                       && c.fingerprint == g.fingerprint)
  {
    if ticks != [] {
      var t := ticks[0];
      var first := NewClaims(t.grants, t.now, announced);
      SweepClaims(t.grants, t.now, announced);
      AnnouncedExactlyOnce(ticks[1..], announced + Members(first));
      var rest := ClaimsOver(ticks[1..], announced + Members(first));
      assert ClaimsOver(ticks, announced) == first + rest;
      assert forall c :: c in first <==> c in Members(first);
      NoRepeatsConcat(first, rest);
    }
  }
}
