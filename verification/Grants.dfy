/** Grants and the store that holds them. */
module Grants {
  import opened Options

  /** `expires` is None until revoked; `paths` empty is the whole share. */
  datatype Grant = Grant(
    fingerprint: string, nodeId: string, name: string, granted: nat, expires: Option<nat>,
    paths: seq<string>, allowFiles: bool, allowPrint: bool)

  predicate Live(g: Grant, now: nat) {
    g.expires.None? || g.expires.value > now
  }

  ghost predicate UniqueFingerprints(gs: seq<Grant>) {
    forall i, j :: 0 <= i < j < |gs| ==> gs[i].fingerprint != gs[j].fingerprint
  }

  /** The grants without the one for `fingerprint`. */
  function Without(gs: seq<Grant>, fingerprint: string): (r: seq<Grant>)
    ensures |r| <= |gs|
  {
    if gs == [] then []
    else if gs[0].fingerprint != fingerprint then [gs[0]] + Without(gs[1..], fingerprint)
    else Without(gs[1..], fingerprint)
  }

  /** The grants still live at `now`. */
  function LiveGrants(gs: seq<Grant>, now: nat): seq<Grant> {
    if gs == [] then []
    else if Live(gs[0], now) then [gs[0]] + LiveGrants(gs[1..], now)
    else LiveGrants(gs[1..], now)
  }

  lemma {:induction false} WithoutShrinksIff(gs: seq<Grant>, fingerprint: string)
    ensures |Without(gs, fingerprint)| != |gs| <==> exists g :: g in gs && g.fingerprint == fingerprint
  {
    if gs != [] { WithoutShrinksIff(gs[1..], fingerprint); }
  }

  lemma {:induction false} LiveShrinksIff(gs: seq<Grant>, now: nat)
    ensures |LiveGrants(gs, now)| <= |gs|
    ensures |LiveGrants(gs, now)| != |gs| <==> exists g :: g in gs && g.expires.Some? && g.expires.value <= now
  {
    if gs != [] { LiveShrinksIff(gs[1..], now); }
  }

  function Upserted(gs: seq<Grant>, g: Grant): seq<Grant> {
    Without(gs, g.fingerprint) + [g]
  }

  class GrantStore {
    var grants: seq<Grant>

    constructor ()
      ensures grants == []
    {
      grants := [];
    }
  }
}
