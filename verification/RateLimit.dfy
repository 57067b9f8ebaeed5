/** The fixed-window limiter in front of the pairing endpoints. */
module RateLimit {
  import opened Options

  datatype Bucket = Bucket(count: nat, start: nat)

  /** At most `max` calls per bucket; a bucket is replaced once `window` has passed. */
  datatype Limits = Limits(max: nat, window: nat)

  datatype Call = Call(ip: string, at: nat)

  /** The bucket a call at `now` is counted in, before counting it. */
  function Current(l: Limits, b: Option<Bucket>, now: nat): Bucket {
    if b.None? then Bucket(0, now)
    else if now >= b.value.start && now - b.value.start >= l.window then Bucket(0, now)
    else b.value
  }

  predicate Allows(l: Limits, b: Option<Bucket>, now: nat) {
    Current(l, b, now).count < l.max
  }

  function Counted(l: Limits, b: Option<Bucket>, now: nat): Bucket {
    var cur := Current(l, b, now);
    if cur.count < l.max then cur.(count := cur.count + 1) else cur
  }

  function Lookup(buckets: map<string, Bucket>, ip: string): Option<Bucket> {
    if ip in buckets then Some(buckets[ip]) else None
  }

  class RateLimiter {
    const limits: Limits
    var buckets: map<string, Bucket>

    constructor (l: Limits)
      ensures limits == l && buckets == map[]
    {
      limits, buckets := l, map[];
    }

    method Allow(ip: string, now: nat) returns (allowed: bool)
      modifies this
      ensures allowed == Allows(limits, Lookup(old(buckets), ip), now)
      ensures buckets == old(buckets)[ip := Counted(limits, Lookup(old(buckets), ip), now)]
    {
      if ip !in buckets { buckets := buckets[ip := Bucket(0, now)]; }
      var entry := buckets[ip];
      if now >= entry.start && now - entry.start >= limits.window { entry := Bucket(0, now); }
      if entry.count >= limits.max {
        allowed := false;
      } else {
        entry := entry.(count := entry.count + 1);
        allowed := true;
      }
      buckets := buckets[ip := entry];
    }
  }

  // ---- Whole runs ----

  ghost predicate InOrder(calls: seq<Call>) {
    forall i, j :: 0 <= i <= j < |calls| ==> calls[i].at <= calls[j].at
  }

  /** All buckets after a run of calls. */
  function BucketsAfter(l: Limits, calls: seq<Call>): map<string, Bucket> {
    if calls == [] then map[]
    else
      var before := BucketsAfter(l, calls[..|calls| - 1]);
      var last := calls[|calls| - 1];
      before[last.ip := Counted(l, Lookup(before, last.ip), last.at)]
  }

  /** Was the last call of the run let through? */
  predicate LastAllowed(l: Limits, calls: seq<Call>)
    requires calls != []
  {
    var last := calls[|calls| - 1];
    Allows(l, Lookup(BucketsAfter(l, calls[..|calls| - 1]), last.ip), last.at)
  }

  /** Calls from `ip` let through at times in [from, to). */
  function Admitted(l: Limits, calls: seq<Call>, ip: string, from: nat, to: nat): nat {
    if calls == [] then 0
    else
      var last := calls[|calls| - 1];
      Admitted(l, calls[..|calls| - 1], ip, from, to)
      + if last.ip == ip && from <= last.at < to && LastAllowed(l, calls) then 1 else 0
  }

  /** Calls from `ip` let through in the bucket that began at `start`. */
  function AdmittedInBucket(l: Limits, calls: seq<Call>, ip: string, start: nat): nat {
    if calls == [] then 0
    else
      var front, last := calls[..|calls| - 1], calls[|calls| - 1];
      AdmittedInBucket(l, front, ip, start)
      + if last.ip == ip && LastAllowed(l, calls)
           && Current(l, Lookup(BucketsAfter(l, front), ip), last.at).start == start then 1 else 0
  }

  /** The calls made from one address. */
  function From(calls: seq<Call>, ip: string): seq<Call> {
    if calls == [] then []
    else
      var front, last := calls[..|calls| - 1], calls[|calls| - 1];
      if last.ip == ip then From(front, ip) + [last] else From(front, ip)
  }

  /** Addresses do not affect each other: a bucket is what it would be had only
      its own address called. */
  lemma {:induction false} AddressesAreIndependent(l: Limits, calls: seq<Call>, ip: string)
    ensures Lookup(BucketsAfter(l, calls), ip) == Lookup(BucketsAfter(l, From(calls, ip)), ip)
    ensures calls != [] && calls[|calls| - 1].ip == ip ==> LastAllowed(l, calls) == LastAllowed(l, From(calls, ip))
  {
    if calls != [] {
      var front, last := calls[..|calls| - 1], calls[|calls| - 1];
      AddressesAreIndependent(l, front, ip);
      if last.ip == ip {
        var own := From(calls, ip);
        assert own[..|own| - 1] == From(front, ip) && own[|own| - 1] == last;
      }
    }
  }

  lemma {:induction false} BucketBounds(l: Limits, calls: seq<Call>, ip: string)
    requires InOrder(calls)
    ensures var b := Lookup(BucketsAfter(l, calls), ip);
            b.Some? ==> b.value.count <= l.max && calls != [] && b.value.start <= calls[|calls| - 1].at
  {
    if calls != [] { BucketBounds(l, calls[..|calls| - 1], ip); }
  }

  /** Each bucket lets at most `max` calls through. */
  lemma {:induction false} BucketAdmitsAtMostMax(l: Limits, calls: seq<Call>, ip: string, start: nat)
    requires InOrder(calls) && l.window > 0
    ensures AdmittedInBucket(l, calls, ip, start) <= l.max
    ensures var b := Lookup(BucketsAfter(l, calls), ip);
            b.Some? && b.value.start == start ==> AdmittedInBucket(l, calls, ip, start) == b.value.count
    ensures var b := Lookup(BucketsAfter(l, calls), ip);
            b.None? || b.value.start < start ==> AdmittedInBucket(l, calls, ip, start) == 0
  {
    if calls != [] {
      var front := calls[..|calls| - 1];
      BucketAdmitsAtMostMax(l, front, ip, start);
      BucketBounds(l, front, ip);
    }
  }

  lemma {:induction false} NoneBefore(l: Limits, calls: seq<Call>, ip: string, from: nat, to: nat)
    requires InOrder(calls) && (calls != [] ==> calls[|calls| - 1].at < from)
    ensures Admitted(l, calls, ip, from, to) == 0
  {
    if calls != [] {
      var front := calls[..|calls| - 1];
      assert front != [] ==> front[|front| - 1].at <= calls[|calls| - 1].at;
      NoneBefore(l, front, ip, from, to);
    }
  }

  /** The count in one window length, bucket by bucket: a bucket that began
      before the interval spent its first call outside it. */
  lemma {:induction false} WindowByBucket(l: Limits, calls: seq<Call>, ip: string, from: nat)
    requires InOrder(calls) && l.max > 0
    ensures var n, b := Admitted(l, calls, ip, from, from + l.window), Lookup(BucketsAfter(l, calls), ip);
            if b.None? then n == 0
            else if b.value.start < from then n < b.value.count
            else if b.value.start < from + l.window then n < l.max + b.value.count
            else n < 2 * l.max
  {
    if calls != [] {
      var front, last := calls[..|calls| - 1], calls[|calls| - 1];
      WindowByBucket(l, front, ip, from);
      BucketBounds(l, front, ip);
      if last.at < from {
        assert front != [] ==> front[|front| - 1].at <= last.at;
        NoneBefore(l, front, ip, from, from + l.window);
      }
    }
  }

  lemma {:induction false} NoneWithoutLimit(l: Limits, calls: seq<Call>, ip: string, from: nat, to: nat)
    requires l.max == 0
    ensures Admitted(l, calls, ip, from, to) == 0
  {
    if calls != [] { NoneWithoutLimit(l, calls[..|calls| - 1], ip, from, to); }
  }

  /** Over any run, a half-open interval of one window length lets fewer than
      twice `max` calls from one address through. */
  lemma WindowAdmitsFewerThanTwice(l: Limits, calls: seq<Call>, ip: string, from: nat)
    requires InOrder(calls)
    ensures l.max == 0 ==> Admitted(l, calls, ip, from, from + l.window) == 0
    ensures l.max > 0 ==> Admitted(l, calls, ip, from, from + l.window) <= 2 * l.max - 1
  {
    if l.max == 0 {
      NoneWithoutLimit(l, calls, ip, from, from + l.window);
    } else {
      WindowByBucket(l, calls, ip, from);
      BucketBounds(l, calls, ip);
    }
  }

  // ---- Refusals ----

  lemma {:induction false} BucketIsRecent(l: Limits, calls: seq<Call>, ip: string, start: nat, from: nat, to: nat)
    requires InOrder(calls) && from <= start && (calls != [] ==> calls[|calls| - 1].at < to)
    ensures Admitted(l, calls, ip, from, to) >= AdmittedInBucket(l, calls, ip, start)
  {
    if calls != [] {
      var front := calls[..|calls| - 1];
      assert front != [] ==> front[|front| - 1].at <= calls[|calls| - 1].at;
      BucketIsRecent(l, front, ip, start, from, to);
      BucketBounds(l, front, ip);
    }
  }

  /** The first moment that is less than one window before `t`. */
  function WindowStart(l: Limits, t: nat): nat {
    if t + 1 < l.window then 0 else t + 1 - l.window
  }

  /** Over any run: an address is refused only if `max` of its calls were let through
      less than one window ago. */
  lemma RefusedOnlyIfBusy(l: Limits, calls: seq<Call>)
    requires InOrder(calls) && calls != [] && l.window > 0 && !LastAllowed(l, calls)
    ensures var last := calls[|calls| - 1];
            Admitted(l, calls[..|calls| - 1], last.ip, WindowStart(l, last.at), last.at + 1) >= l.max
  {
    var front, last := calls[..|calls| - 1], calls[|calls| - 1];
    var b := Lookup(BucketsAfter(l, front), last.ip);
    BucketBounds(l, front, last.ip);
    assert front != [] ==> front[|front| - 1].at <= last.at;
    if l.max > 0 {
      BucketAdmitsAtMostMax(l, front, last.ip, b.value.start);
      BucketIsRecent(l, front, last.ip, b.value.start, WindowStart(l, last.at), last.at + 1);
    }
  }

  lemma {:induction false} NoneWithoutCalls(l: Limits, calls: seq<Call>, ip: string, from: nat, to: nat)
    requires forall c :: c in calls && c.ip == ip ==> !(from <= c.at < to)
    ensures Admitted(l, calls, ip, from, to) == 0
  {
    if calls != [] {
      assert calls[|calls| - 1] in calls;
      NoneWithoutCalls(l, calls[..|calls| - 1], ip, from, to);
    }
  }

  /** An address that has been quiet for one window is let through. */
  lemma QuietIsAdmitted(l: Limits, calls: seq<Call>)
    requires InOrder(calls) && calls != [] && l.window > 0 && l.max > 0
    requires var last := calls[|calls| - 1];
             forall c :: c in calls[..|calls| - 1] && c.ip == last.ip ==> c.at + l.window <= last.at
    ensures LastAllowed(l, calls)
  {
    if !LastAllowed(l, calls) {
      var last := calls[|calls| - 1];
      RefusedOnlyIfBusy(l, calls);
      NoneWithoutCalls(l, calls[..|calls| - 1], last.ip, WindowStart(l, last.at), last.at + 1);
      assert false;
    }
  }

  // ---- The bound is reached ----

  lemma AppendOne(l: Limits, calls: seq<Call>, c: Call, from: nat, to: nat)
    ensures var b := Lookup(BucketsAfter(l, calls), c.ip);
            && Lookup(BucketsAfter(l, calls + [c]), c.ip) == Some(Counted(l, b, c.at))
            && Admitted(l, calls + [c], c.ip, from, to)
               == Admitted(l, calls, c.ip, from, to) + if from <= c.at < to && Allows(l, b, c.at) then 1 else 0
  {
    assert (calls + [c])[..|calls|] == calls;
  }

  /** The run is in order and ends by `at`. */
  ghost predicate Until(calls: seq<Call>, at: nat) {
    InOrder(calls) && forall c :: c in calls ==> c.at <= at
  }

  lemma UntilGrows(calls: seq<Call>, c: Call)
    requires Until(calls, c.at)
    ensures Until(calls + [c], c.at)
  {
    var run := calls + [c];
    forall i, j | 0 <= i <= j < |run| ensures run[i].at <= run[j].at {
      if i < |calls| == j { assert calls[i] in calls; }
    }
  }

  /** One more call into a bucket that has room. */
  lemma OneMore(l: Limits, calls: seq<Call>, c: Call, from: nat, to: nat, b: Bucket) returns (run: seq<Call>)
    requires Until(calls, c.at) && b == Current(l, Lookup(BucketsAfter(l, calls), c.ip), c.at) && b.count < l.max
    ensures Until(run, c.at) && Lookup(BucketsAfter(l, run), c.ip) == Some(b.(count := b.count + 1))
    ensures Admitted(l, run, c.ip, from, to) == Admitted(l, calls, c.ip, from, to) + if from <= c.at < to then 1 else 0
  {
    AppendOne(l, calls, c, from, to);
    UntilGrows(calls, c);
    run := calls + [c];
  }

  /** A burst of `n` calls into the current bucket is admitted if there is room. */
  lemma {:induction false} Burst(l: Limits, calls: seq<Call>, ip: string, at: nat, n: nat, from: nat, to: nat, cur: Bucket)
    returns (run: seq<Call>)
    requires n > 0 && Until(calls, at) && cur == Current(l, Lookup(BucketsAfter(l, calls), ip), at)
    requires cur.count + n <= l.max && cur.start <= at < cur.start + l.window
    ensures Until(run, at) && Lookup(BucketsAfter(l, run), ip) == Some(cur.(count := cur.count + n))
    ensures Admitted(l, run, ip, from, to) == Admitted(l, calls, ip, from, to) + if from <= at < to then n else 0
  {
    var before := calls;
    if n > 1 { before := Burst(l, calls, ip, at, n - 1, from, to, cur); }
    run := OneMore(l, before, Call(ip, at), from, to, cur.(count := cur.count + n - 1));
  }

  /** The bound is reached: one early call, the rest of its bucket at the end of
      its window, then a full bucket one tick later. */
  lemma BoundIsReached(l: Limits, ip: string) returns (calls: seq<Call>)
    requires l.max > 1 && l.window > 1
    ensures InOrder(calls) && Admitted(l, calls, ip, 1, 1 + l.window) == 2 * l.max - 1
  {
    calls := Burst(l, [], ip, 0, 1, 1, 1 + l.window, Bucket(0, 0));
    calls := Burst(l, calls, ip, l.window - 1, l.max - 1, 1, 1 + l.window, Bucket(1, 0));
    calls := Burst(l, calls, ip, l.window, l.max, 1, 1 + l.window, Bucket(0, l.window));
  }

  /** The limiter the pairing endpoints use: 20 calls per minute. */
  const PAIRING := Limits(20, 60)

  /** Under that limiter one minute lets at most 39 calls of an address through,
      and some run lets exactly 39 through. */
  lemma PairingAdmitsThirtyNine(calls: seq<Call>, ip: string, from: nat) returns (worst: seq<Call>)
    requires InOrder(calls)
    ensures Admitted(PAIRING, calls, ip, from, from + 60) <= 39
    ensures InOrder(worst) && Admitted(PAIRING, worst, ip, 1, 61) == 39
  {
    WindowAdmitsFewerThanTwice(PAIRING, calls, ip, from);
    worst := BoundIsReached(PAIRING, ip);
  }
}
