/** The strings that signatures cover. */
module Canonical {
  import opened Numbers

  datatype PairRequest = PairRequest(
    nodeId: string, name: string, pubkey: string, duration: nat, signature: string)

  datatype PairDecision = PairDecision(
    requester: string, decision: string, duration: nat, pubkey: string, signature: string)

  const PAIR_TAG := "doclink-pair-v1"
  const DECISION_TAG := "doclink-decision-v1"

  function PairString(r: PairRequest): string {
    PAIR_TAG + "\n" + r.nodeId + "\n" + r.name + "\n" + r.pubkey + "\n" + Decimal(r.duration)
  }

  function DecisionString(d: PairDecision): string {
    DECISION_TAG + "\n" + d.requester + "\n" + d.decision + "\n" + Decimal(d.duration) + "\n" + d.pubkey
  }

  /** `body` is the request body after lossy UTF-8 decoding. */
  function RequestString(verb: string, pathQ: string, ts: nat, nonce: string, body: string): string {
    verb + "\n" + pathQ + "\n" + Decimal(ts) + "\n" + nonce + "\n" + body
  }

  predicate OneLine(s: string) { '\n' !in s }

  // ---- Lines come apart in one way only ----

  lemma FirstLine(a: string, s: string, b: string, t: string)
    requires OneLine(a) && OneLine(b) && a + "\n" + s == b + "\n" + t
    ensures a == b && s == t
  {
    var x := a + "\n" + s;
    assert x == b + "\n" + t;
    assert x[|a|] == '\n' && x[|b|] == '\n';
    assert a == x[..|a|] && b == x[..|b|];
    assert s == x[|a| + 1..] && t == x[|b| + 1..];
  }

  lemma LastLine(s: string, a: string, t: string, b: string)
    requires OneLine(a) && OneLine(b) && s + "\n" + a == t + "\n" + b
    ensures s == t && a == b
  {
    var x := s + "\n" + a;
    assert x == t + "\n" + b;
    assert x[|s|] == '\n' && x[|t|] == '\n';
    assert s == x[..|s|] && t == x[..|t|];
    assert a == x[|s| + 1..] && b == x[|t| + 1..];
  }

  lemma TagsAreOneLine()
    ensures OneLine(PAIR_TAG) && OneLine(DECISION_TAG) && PAIR_TAG != DECISION_TAG
  {
    assert PAIR_TAG[8] != DECISION_TAG[8];
  }

  /** A pair request's signed string determines every field, even when the
      display name contains line breaks. */
  lemma PairStringIsInjective(r: PairRequest, q: PairRequest)
    requires OneLine(r.nodeId) && OneLine(r.pubkey) && OneLine(q.nodeId) && OneLine(q.pubkey)
    requires PairString(r) == PairString(q)
    ensures r.nodeId == q.nodeId && r.name == q.name && r.pubkey == q.pubkey && r.duration == q.duration
  {
    DecimalHasNo(r.duration, '\n');
    DecimalHasNo(q.duration, '\n');
    var rHead, qHead := PAIR_TAG + "\n" + r.nodeId + "\n" + r.name, PAIR_TAG + "\n" + q.nodeId + "\n" + q.name;
    LastLine(rHead + "\n" + r.pubkey, Decimal(r.duration), qHead + "\n" + q.pubkey, Decimal(q.duration));
    DecimalIsInjective(r.duration, q.duration);
    LastLine(rHead, r.pubkey, qHead, q.pubkey);
    TagsAreOneLine();
    assert rHead == PAIR_TAG + "\n" + (r.nodeId + "\n" + r.name);
    assert qHead == PAIR_TAG + "\n" + (q.nodeId + "\n" + q.name);
    FirstLine(PAIR_TAG, r.nodeId + "\n" + r.name, PAIR_TAG, q.nodeId + "\n" + q.name);
    FirstLine(r.nodeId, r.name, q.nodeId, q.name);
  }

  lemma DecisionStringIsInjective(d: PairDecision, e: PairDecision)
    requires OneLine(d.requester) && OneLine(d.pubkey) && OneLine(e.requester) && OneLine(e.pubkey)
    requires DecisionString(d) == DecisionString(e)
    ensures d.requester == e.requester && d.decision == e.decision
    ensures d.duration == e.duration && d.pubkey == e.pubkey
  {
    DecimalHasNo(d.duration, '\n');
    DecimalHasNo(e.duration, '\n');
    var dHead := DECISION_TAG + "\n" + d.requester + "\n" + d.decision;
    var eHead := DECISION_TAG + "\n" + e.requester + "\n" + e.decision;
    LastLine(dHead + "\n" + Decimal(d.duration), d.pubkey, eHead + "\n" + Decimal(e.duration), e.pubkey);
    LastLine(dHead, Decimal(d.duration), eHead, Decimal(e.duration));
    DecimalIsInjective(d.duration, e.duration);
    TagsAreOneLine();
    assert dHead == DECISION_TAG + "\n" + (d.requester + "\n" + d.decision);
    assert eHead == DECISION_TAG + "\n" + (e.requester + "\n" + e.decision);
    FirstLine(DECISION_TAG, d.requester + "\n" + d.decision, DECISION_TAG, e.requester + "\n" + e.decision);
    FirstLine(d.requester, d.decision, e.requester, e.decision);
  }

  /** An authenticated request's signed string determines every header field
      and the decoded body. */
  lemma RequestStringIsInjective(
      verb: string, pathQ: string, ts: nat, nonce: string, body: string,
      verb': string, pathQ': string, ts': nat, nonce': string, body': string)
    requires OneLine(verb) && OneLine(pathQ) && OneLine(nonce)
    requires OneLine(verb') && OneLine(pathQ') && OneLine(nonce')
    requires RequestString(verb, pathQ, ts, nonce, body) == RequestString(verb', pathQ', ts', nonce', body')
    ensures verb == verb' && pathQ == pathQ' && ts == ts' && nonce == nonce' && body == body'
  {
    DecimalHasNo(ts, '\n');
    DecimalHasNo(ts', '\n');
    Grouped(verb, pathQ, Decimal(ts), nonce, body);
    Grouped(verb', pathQ', Decimal(ts'), nonce', body');
    var tail, tail' := nonce + "\n" + body, nonce' + "\n" + body';
    var rest, rest' := Decimal(ts) + "\n" + tail, Decimal(ts') + "\n" + tail';
    FirstLine(verb, pathQ + "\n" + rest, verb', pathQ' + "\n" + rest');
    FirstLine(pathQ, rest, pathQ', rest');
    FirstLine(Decimal(ts), tail, Decimal(ts'), tail');
    DecimalIsInjective(ts, ts');
    FirstLine(nonce, body, nonce', body');
  }

  /** No string is signed in two roles: the first line tells them apart. */
  lemma RolesNeverCoincide(r: PairRequest, d: PairDecision,
                           verb: string, pathQ: string, ts: nat, nonce: string, body: string)
    requires OneLine(verb) && verb != PAIR_TAG && verb != DECISION_TAG
    ensures PairString(r) != DecisionString(d)
    ensures RequestString(verb, pathQ, ts, nonce, body) != PairString(r)
    ensures RequestString(verb, pathQ, ts, nonce, body) != DecisionString(d)
  {
    TagsAreOneLine();
    var p := r.nodeId + "\n" + r.name + "\n" + r.pubkey + "\n" + Decimal(r.duration);
    var q := d.requester + "\n" + d.decision + "\n" + Decimal(d.duration) + "\n" + d.pubkey;
    var m := pathQ + "\n" + Decimal(ts) + "\n" + nonce + "\n" + body;
    assert PairString(r) == PAIR_TAG + "\n" + p;
    assert DecisionString(d) == DECISION_TAG + "\n" + q;
    assert RequestString(verb, pathQ, ts, nonce, body) == verb + "\n" + m;
    if PAIR_TAG + "\n" + p == DECISION_TAG + "\n" + q { FirstLine(PAIR_TAG, p, DECISION_TAG, q); }
    if verb + "\n" + m == PAIR_TAG + "\n" + p { FirstLine(verb, m, PAIR_TAG, p); }
    if verb + "\n" + m == DECISION_TAG + "\n" + q { FirstLine(verb, m, DECISION_TAG, q); }
  }

  /** A line break in the node id would move text between the id and the name. */
  lemma LineBreakInNodeIdIsAmbiguous()
    ensures exists r: PairRequest, q: PairRequest :: r.nodeId != q.nodeId && PairString(r) == PairString(q)
  {
    var r := PairRequest("a\nb", "c", "k", 0, "");
    var q := PairRequest("a", "b\nc", "k", 0, "");
    assert r.nodeId + "\n" + r.name == q.nodeId + "\n" + q.name;
    var tail := "\n" + "k" + "\n" + Decimal(0);
    assert PairString(r) == PAIR_TAG + "\n" + (r.nodeId + "\n" + r.name) + tail;
    assert PairString(q) == PAIR_TAG + "\n" + (q.nodeId + "\n" + q.name) + tail;
  }

  // ---- Layout ----

  function Lines(s: string): (r: seq<string>)
    ensures r != []
  {
    if s == [] then [""]
    else
      var rest := Lines(s[1..]);
      if s[0] == '\n' then [""] + rest else [[s[0]] + rest[0]] + rest[1..]
  }

  lemma {:induction false} LinesOfOne(a: string)
    requires OneLine(a)
    ensures Lines(a) == [a]
  {
    if a != [] {
      assert a[0] in a && a == [a[0]] + a[1..];
      LinesOfOne(a[1..]);
    }
  }

  lemma {:induction false} LinesCons(a: string, s: string)
    requires OneLine(a)
    ensures Lines(a + "\n" + s) == [a] + Lines(s)
  {
    var t := a + "\n" + s;
    if a == [] {
      assert t[1..] == s;
    } else {
      assert a[0] in a && a == [a[0]] + a[1..];
      assert t[0] == a[0] && t[1..] == a[1..] + "\n" + s;
      LinesCons(a[1..], s);
      assert ([a[1..]] + Lines(s))[1..] == Lines(s);
    }
  }

  lemma FourLines(a: string, b: string, c: string, d: string, rest: seq<string>)
    ensures [a] + ([b] + ([c] + ([d] + rest))) == [a, b, c, d] + rest
  {
  }

  /** Four one-line fields and whatever follows. */
  lemma FieldsAreLines(a: string, b: string, c: string, d: string, e: string, s: string)
    requires OneLine(a) && OneLine(b) && OneLine(c) && OneLine(d)
    requires s == a + "\n" + (b + "\n" + (c + "\n" + (d + "\n" + e)))
    ensures Lines(s) == [a, b, c, d] + Lines(e)
  {
    var last := d + "\n" + e;
    var mid := c + "\n" + last;
    LinesCons(d, e);
    LinesCons(c, last);
    LinesCons(b, mid);
    LinesCons(a, b + "\n" + mid);
    FourLines(a, b, c, d, Lines(e));
  }

  lemma Grouped(a: string, b: string, c: string, d: string, e: string)
    ensures a + "\n" + b + "\n" + c + "\n" + d + "\n" + e == a + "\n" + (b + "\n" + (c + "\n" + (d + "\n" + e)))
  {
  }

  /** Line by line, the pair request signs its tag, node id, name, key and duration. */
  lemma PairLayout(r: PairRequest)
    requires OneLine(r.nodeId) && OneLine(r.name) && OneLine(r.pubkey)
    ensures Lines(PairString(r)) == ["doclink-pair-v1", r.nodeId, r.name, r.pubkey, Decimal(r.duration)]
  {
    TagsAreOneLine();
    DecimalHasNo(r.duration, '\n');
    LinesOfOne(Decimal(r.duration));
    Grouped(PAIR_TAG, r.nodeId, r.name, r.pubkey, Decimal(r.duration));
    FieldsAreLines(PAIR_TAG, r.nodeId, r.name, r.pubkey, Decimal(r.duration), PairString(r));
  }

  /** The decision signs its tag, the requester, the verdict, the duration and the key. */
  lemma DecisionLayout(d: PairDecision)
    requires OneLine(d.requester) && OneLine(d.decision) && OneLine(d.pubkey)
    ensures Lines(DecisionString(d)) == ["doclink-decision-v1", d.requester, d.decision, Decimal(d.duration), d.pubkey]
  {
    TagsAreOneLine();
    DecimalHasNo(d.duration, '\n');
    LinesOfOne(d.pubkey);
    Grouped(DECISION_TAG, d.requester, d.decision, Decimal(d.duration), d.pubkey);
    FieldsAreLines(DECISION_TAG, d.requester, d.decision, Decimal(d.duration), d.pubkey, DecisionString(d));
  }

  /** A request signs verb, path, timestamp, nonce and then the body, whose lines follow. */
  lemma RequestLayout(verb: string, pathQ: string, ts: nat, nonce: string, body: string)
    requires OneLine(verb) && OneLine(pathQ) && OneLine(nonce)
    ensures Lines(RequestString(verb, pathQ, ts, nonce, body)) == [verb, pathQ, Decimal(ts), nonce] + Lines(body)
  {
    DecimalHasNo(ts, '\n');
    Grouped(verb, pathQ, Decimal(ts), nonce, body);
    FieldsAreLines(verb, pathQ, Decimal(ts), nonce, body, RequestString(verb, pathQ, ts, nonce, body));
  }
}
