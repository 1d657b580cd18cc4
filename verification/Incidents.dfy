/**
  The incident journal: node incidents, mass incidents correlated from what failed together, and
  pruning. Identifiers, names and texts of incidents are not modelled.
*/
module Incidents {
  import opened Wrappers
  import opened SortedLists

  type Time = int

  const MAX_INCIDENTS := 1000

  datatype Kind = NodeIncident | MassIncident

  datatype Incident = Incident(
    kind: Kind, scope: string, active: bool, ids: seq<string>, affected: nat, total: nat, cause: string,
    startedAt: Time, updatedAt: Time, resolvedAt: Time, seconds: nat)

  /** A watched node of the journal and, when it has a status, what it says. */
  datatype Failure = Failure(online: bool, offline: bool, code: string, downSince: Time, hostUp: bool)

  datatype Proxy = Proxy(id: string, subscription: string, server: string)

  const UNKNOWN := "unknown"
  const CHECK_ENDPOINT := "check_endpoint"
  const ENDPOINT_CODES := {"dns", "http_status", "proxy_timeout", "tls"}

  function CodeOf(f: Failure): string {
    if f.code == "" then UNKNOWN else f.code
  }

  function Duration(start: Time, end: Time): nat {
    if start == 0 || end < start then 0 else (end - start) / 1_000_000_000
  }

  /** At most one active incident of each kind and scope. */
  ghost predicate OneActive(incidents: seq<Incident>) {
    forall i, j :: 0 <= i < j < |incidents| && incidents[i].active && incidents[j].active ==>
      incidents[i].kind != incidents[j].kind || incidents[i].scope != incidents[j].scope
  }

  predicate IsActive(incidents: seq<Incident>, i: nat, kind: Kind, scope: string) {
    i < |incidents| && incidents[i].active && incidents[i].kind == kind && incidents[i].scope == scope
  }

  predicate SomeActive(incidents: seq<Incident>, kind: Kind, scope: string) {
    exists i :: 0 <= i < |incidents| && incidents[i].active && incidents[i].kind == kind && incidents[i].scope == scope
  }

  function Resolved(incident: Incident, now: Time): Incident {
    incident.(active := false, resolvedAt := now, updatedAt := now, seconds := Duration(incident.startedAt, now))
  }

  // ----- mass incidents -----

  datatype Candidate = Candidate(scope: string, ids: seq<string>, total: nat, cause: string)

  function Required(n: nat): nat {
    if (n + 1) / 2 < 3 then 3 else (n + 1) / 2
  }

  /** At least three, and at least half. */
  lemma RequiredInFacts(n: nat, k: nat)
    ensures k >= Required(n) <==> k >= 3 && 2 * k >= n
  {
  }

  /** The nodes of `failed` whose failure has this code. */
  function WithCode(failed: seq<Proxy>, statuses: map<string, Failure>, code: string): (r: seq<Proxy>)
    requires forall p :: p in failed ==> p.id in statuses
    ensures forall p :: p in r ==> p in failed
  {
    if failed == [] then []
    else
      var before := WithCode(failed[..|failed| - 1], statuses, code);
      var last := failed[|failed| - 1];
      if CodeOf(statuses[last.id]) == code then before + [last] else before
  }

  /** code is the cause of the most failures, the first in order among equals. */
  ghost predicate MainCause(failed: seq<Proxy>, statuses: map<string, Failure>, code: string)
    requires forall p :: p in failed ==> p.id in statuses
  {
    forall other: string ::
      && |WithCode(failed, statuses, other)| <= |WithCode(failed, statuses, code)|
      && (other != code && |WithCode(failed, statuses, other)| == |WithCode(failed, statuses, code)| > 0 ==> Before(code, other))
  }

  ghost predicate InOrder(ids: seq<string>) {
    forall i, j :: 0 <= i < j < |ids| ==> ids[i] == ids[j] || Before(ids[i], ids[j])
  }

  /** likelySharedCheckEndpoint: checks fail alike at two servers or more whose hosts all answer. */
  predicate LikelySharedEndpoint(code: string, selected: seq<Proxy>, statuses: map<string, Failure>)
    requires forall p :: p in selected ==> p.id in statuses
  {
    && code in ENDPOINT_CODES && (forall p :: p in selected ==> statuses[p.id].hostUp)
    && |set i | 0 <= i < |selected| :: selected[i].server| >= 2
  }

  /** The check endpoint is blamed exactly for a cause it can have, when every host was seen up and two
      of the nodes are on different servers. */
  lemma SharedInFacts(code: string, selected: seq<Proxy>, statuses: map<string, Failure>)
    requires forall p :: p in selected ==> p.id in statuses
    ensures LikelySharedEndpoint(code, selected, statuses) <==>
              && code in ENDPOINT_CODES && (forall p :: p in selected ==> statuses[p.id].hostUp)
              && exists p, q :: p in selected && q in selected && p.server != q.server
  {
    var servers := set i | 0 <= i < |selected| :: selected[i].server;
    if p, q :| p in selected && q in selected && p.server != q.server {
      var i, j :| 0 <= i < |selected| && selected[i] == p && 0 <= j < |selected| && selected[j] == q;
      assert {selected[i].server, selected[j].server} <= servers;
      TwoAtLeast(servers, p.server, q.server);
    } else if |servers| >= 2 {
      var s :| s in servers;
      assert servers != {s};
      var t :| t in servers && t != s;
    }
  }

  lemma TwoAtLeast(servers: set<string>, s: string, t: string)
    requires s in servers && t in servers && s != t
    ensures |servers| >= 2
  {
    assert servers == {s, t} + (servers - {s, t});
  }

  /** A scope's failing nodes deserve a mass incident: enough of them, all for one cause. */
  ghost predicate IsCandidate(c: Candidate, scope: string, active: seq<Proxy>, failed: seq<Proxy>, statuses: map<string, Failure>)
    requires forall p :: p in failed ==> p.id in statuses
  {
    && c.scope == scope && c.total == |active| && |c.ids| >= Required(|active|) && InOrder(c.ids)
    && exists code :: && MainCause(failed, statuses, code)
                      && multiset(c.ids) == multiset(Ids(WithCode(failed, statuses, code)))
                      && c.cause == if scope == "global" && LikelySharedEndpoint(code, WithCode(failed, statuses, code), statuses) then CHECK_ENDPOINT else code
  }

  function Ids(proxies: seq<Proxy>): (ids: seq<string>)
    ensures |ids| == |proxies| && forall i :: 0 <= i < |ids| ==> ids[i] == proxies[i].id
  {
    seq(|proxies|, i requires 0 <= i < |proxies| => proxies[i].id)
  }

  function Codes(failed: seq<Proxy>, statuses: map<string, Failure>): set<string>
    requires forall p :: p in failed ==> p.id in statuses
  {
    set i | 0 <= i < |failed| :: CodeOf(statuses[failed[i].id])
  }

  lemma {:induction false} WithCodeMembers(failed: seq<Proxy>, statuses: map<string, Failure>, code: string)
    requires forall p :: p in failed ==> p.id in statuses
    ensures forall p :: p in WithCode(failed, statuses, code) <==> p in failed && CodeOf(statuses[p.id]) == code
    decreases |failed|
  {
    if failed != [] {
      WithCodeMembers(failed[..|failed| - 1], statuses, code);
      assert failed == failed[..|failed| - 1] + [failed[|failed| - 1]];
    }
  }

  lemma NoSuchCode(failed: seq<Proxy>, statuses: map<string, Failure>, code: string)
    requires (forall p :: p in failed ==> p.id in statuses) && code !in Codes(failed, statuses)
    ensures WithCode(failed, statuses, code) == []
  {
    WithCodeMembers(failed, statuses, code);
    forall p | p in failed ensures CodeOf(statuses[p.id]) != code {
      var i :| 0 <= i < |failed| && failed[i] == p;
      assert CodeOf(statuses[failed[i].id]) in Codes(failed, statuses);
    }
    assert forall p :: p !in WithCode(failed, statuses, code);
  }

  method SortIds(ids: seq<string>) returns (r: seq<string>)
    ensures multiset(r) == multiset(ids) && InOrder(r)
  {
    r := [];
    for i := 0 to |ids|
      invariant multiset(r) == multiset(ids[..i]) && InOrder(r)
    {
      assert ids[..i + 1] == ids[..i] + [ids[i]];
      r := InsertId(r, ids[i]);
    }
    assert ids[..|ids|] == ids;
  }

  method InsertId(s: seq<string>, x: string) returns (r: seq<string>)
    requires InOrder(s)
    ensures InOrder(r) && multiset(r) == multiset(s) + multiset{x}
  {
    var i := 0;
    while i < |s| && Before(s[i], x)
      invariant 0 <= i <= |s|
      invariant forall j :: 0 <= j < i ==> Before(s[j], x)
    {
      i := i + 1;
    }
    r := s[..i] + [x] + s[i..];
    IdInserted(s, x, i);
  }

  lemma IdInserted(s: seq<string>, x: string, i: nat)
    requires InOrder(s) && i <= |s| && (i < |s| ==> !Before(s[i], x))
    requires forall j :: 0 <= j < i ==> Before(s[j], x)
    ensures InOrder(s[..i] + [x] + s[i..]) && multiset(s[..i] + [x] + s[i..]) == multiset(s) + multiset{x}
  {
    OneMoreElement(s, x, i);
    forall k | i <= k < |s| ensures x == s[k] || Before(x, s[k]) {
      AfterFirst(s, x, i, k);
    }
    StillInOrder(s, x, i, (a, b) => a == b || Before(a, b));
  }

  lemma OneMoreElement<T>(s: seq<T>, x: T, i: nat)
    requires i <= |s|
    ensures multiset(s[..i] + [x] + s[i..]) == multiset(s) + multiset{x}
  {
    assert s == s[..i] + s[i..];
  }

  lemma StillInOrder<T>(s: seq<T>, x: T, i: nat, notAfter: (T, T) -> bool)
    requires i <= |s| && forall j, k :: 0 <= j < k < |s| ==> notAfter(s[j], s[k])
    requires forall j :: 0 <= j < i ==> notAfter(s[j], x)
    requires forall k :: i <= k < |s| ==> notAfter(x, s[k])
    ensures var r := s[..i] + [x] + s[i..]; forall j, k :: 0 <= j < k < |r| ==> notAfter(r[j], r[k])
  {
  }

  lemma AfterFirst(s: seq<string>, x: string, i: nat, k: nat)
    requires InOrder(s) && i <= k < |s| && !Before(s[i], x)
    ensures x == s[k] || Before(x, s[k])
  {
    BeforeIsTotal(x, s[i]);
    if x != s[i] && s[i] != s[k] {
      BeforeIsTransitive(x, s[i], s[k]);
    }
  }

  predicate IsFailing(failed: seq<Proxy>, statuses: map<string, Failure>) {
    forall p :: p in failed ==> p.id in statuses
  }

  /** Whether this many nodes with one cause failed together among these. */
  ghost predicate FailsTogether(active: seq<Proxy>, failed: seq<Proxy>, statuses: map<string, Failure>)
    requires IsFailing(failed, statuses)
  {
    exists code: string :: |WithCode(failed, statuses, code)| >= Required(|active|)
  }

  /** massCandidate. */
  method MassCandidate(scope: string, active: seq<Proxy>, failed: seq<Proxy>, statuses: map<string, Failure>)
    returns (c: Option<Candidate>)
    requires forall p :: p in failed ==> p.id in statuses && p in active
    ensures c.Some? ==> IsCandidate(c.value, scope, active, failed, statuses)
    ensures c.Some? <==> FailsTogether(active, failed, statuses)
    ensures c.Some? <==> exists code: string :: var n := |WithCode(failed, statuses, code)|; n >= 3 && 2 * n >= |active|
    ensures c.Some? ==> |c.value.ids| >= 3 && 2 * |c.value.ids| >= |active|
  {
    assert failed != [] ==> failed[0] in active;
    if |active| == 0 || |failed| == 0 {
      return None;
    }
    var best := BestCode(failed, statuses, Required(|active|));
    if best.None? {
      return None;
    }
    var selected := WithCode(failed, statuses, best.value);
    var ids := SortIds(Ids(selected));
    assert |ids| == |multiset(ids)| == |Ids(selected)|;
    var shared := SharedEndpoint(best.value, selected, statuses);
    var cause := if scope == "global" && shared then CHECK_ENDPOINT else best.value;
    return Some(Candidate(scope, ids, |active|, cause));
  }

  method SharedEndpoint(code: string, selected: seq<Proxy>, statuses: map<string, Failure>) returns (b: bool)
    requires forall p :: p in selected ==> p.id in statuses
    ensures b == LikelySharedEndpoint(code, selected, statuses)
  {
    if code !in ENDPOINT_CODES {
      return false;
    }
    var servers: set<string> := {};
    for i := 0 to |selected|
      invariant servers == set k | 0 <= k < i :: selected[k].server
      invariant forall k :: 0 <= k < i ==> statuses[selected[k].id].hostUp
    {
      if !statuses[selected[i].id].hostUp {
        return false;
      }
      servers := servers + {selected[i].server};
    }
    return |servers| >= 2;
  }

  /** The selection of a cause: codes in order, a later one only when it has more nodes. */
  method BestCode(failed: seq<Proxy>, statuses: map<string, Failure>, required: nat) returns (best: Option<string>)
    requires (forall p :: p in failed ==> p.id in statuses) && required > 0
    ensures best.None? ==> forall code: string :: |WithCode(failed, statuses, code)| < required
    ensures best.Some? ==> |WithCode(failed, statuses, best.value)| >= required && MainCause(failed, statuses, best.value)
  {
    best := None;
    var codes := SortStrings(Codes(failed, statuses));
    for i := 0 to |codes|
      invariant best.Some? ==> |WithCode(failed, statuses, best.value)| >= required && exists k :: 0 <= k < i && codes[k] == best.value
      invariant forall k :: 0 <= k < i ==>
                  if best.Some? then
                    && |WithCode(failed, statuses, codes[k])| <= |WithCode(failed, statuses, best.value)|
                    && (codes[k] != best.value && |WithCode(failed, statuses, codes[k])| == |WithCode(failed, statuses, best.value)| ==> Before(best.value, codes[k]))
                  else |WithCode(failed, statuses, codes[k])| < required
    {
      var size := |WithCode(failed, statuses, codes[i])|;
      if size >= required && (best.None? || size > |WithCode(failed, statuses, best.value)|) {
        best := Some(codes[i]);
      }
    }
    forall code: string
      ensures if best.Some? then
                && |WithCode(failed, statuses, code)| <= |WithCode(failed, statuses, best.value)|
                && (code != best.value && |WithCode(failed, statuses, code)| == |WithCode(failed, statuses, best.value)| > 0 ==> Before(best.value, code))
              else |WithCode(failed, statuses, code)| < required
    {
      if code !in Codes(failed, statuses) {
        NoSuchCode(failed, statuses, code);
      } else {
        assert code in Elements(codes);
      }
    }
  }

  // ----- correlation -----

  function ScopeOf(subscription: string): string {
    if subscription == "" then "subscription:(unnamed)" else "subscription:" + subscription
  }

  /** The watched nodes of one subscription, in order. */
  function InSubscription(proxies: seq<Proxy>, subscription: string): (r: seq<Proxy>)
    ensures forall p :: p in r <==> p in proxies && p.subscription == subscription
  {
    if proxies == [] then []
    else
      var before := InSubscription(proxies[..|proxies| - 1], subscription);
      var last := proxies[|proxies| - 1];
      assert proxies == proxies[..|proxies| - 1] + [last];
      if last.subscription == subscription then before + [last] else before
  }

  /** The watched nodes that failed their check. */
  function Failed(proxies: seq<Proxy>, statuses: map<string, Failure>): (r: seq<Proxy>)
    ensures forall p :: p in r <==> p in proxies && p.id in statuses && !statuses[p.id].online
  {
    if proxies == [] then []
    else
      var before := Failed(proxies[..|proxies| - 1], statuses);
      var last := proxies[|proxies| - 1];
      assert proxies == proxies[..|proxies| - 1] + [last];
      if last.id in statuses && !statuses[last.id].online then before + [last] else before
  }

  function Subscriptions(proxies: seq<Proxy>): set<string> {
    set i | 0 <= i < |proxies| :: proxies[i].subscription
  }

  ghost predicate SubscriptionFails(proxies: seq<Proxy>, failed: seq<Proxy>, statuses: map<string, Failure>, subscription: string)
    requires IsFailing(failed, statuses)
  {
    FailsTogether(InSubscription(proxies, subscription), InSubscription(failed, subscription), statuses)
  }

  ghost predicate IsSubscriptionCandidate(c: Candidate, proxies: seq<Proxy>, failed: seq<Proxy>, statuses: map<string, Failure>, subscription: string)
    requires IsFailing(failed, statuses)
  {
    IsCandidate(c, ScopeOf(subscription), InSubscription(proxies, subscription), InSubscription(failed, subscription), statuses)
  }

  ghost predicate OfSubscription(c: Candidate, proxies: seq<Proxy>, failed: seq<Proxy>, statuses: map<string, Failure>)
    requires IsFailing(failed, statuses)
  {
    exists s :: s in Subscriptions(proxies) && IsSubscriptionCandidate(c, proxies, failed, statuses, s)
  }

  predicate Covered(candidates: seq<Candidate>, scope: string) {
    exists i :: 0 <= i < |candidates| && candidates[i].scope == scope
  }

  /** Every candidate is a subscription's, and every one of these subscriptions that fails together
      has one. */
  ghost predicate BySubscription(candidates: seq<Candidate>, proxies: seq<Proxy>, failed: seq<Proxy>, statuses: map<string, Failure>, subscriptions: set<string>)
    requires IsFailing(failed, statuses)
  {
    && (forall c :: c in candidates ==> OfSubscription(c, proxies, failed, statuses))
    && (forall s {:trigger ScopeOf(s)} :: s in subscriptions && SubscriptionFails(proxies, failed, statuses, s) ==> Covered(candidates, ScopeOf(s)))
  }

  /** One candidate for all nodes, or else those of the subscriptions. */
  ghost predicate Correlates(candidates: seq<Candidate>, proxies: seq<Proxy>, statuses: map<string, Failure>) {
    var failed := Failed(proxies, statuses);
    if FailsTogether(proxies, failed, statuses)
    then |candidates| == 1 && IsCandidate(candidates[0], "global", proxies, failed, statuses)
    else BySubscription(candidates, proxies, failed, statuses, Subscriptions(proxies)) && InScopeOrder(candidates)
  }

  ghost predicate InScopeOrder(candidates: seq<Candidate>) {
    forall i, j {:trigger NotAfter(candidates[i], candidates[j])} :: 0 <= i < j < |candidates| ==> NotAfter(candidates[i], candidates[j])
  }

  method FailedProxies(proxies: seq<Proxy>, statuses: map<string, Failure>) returns (failed: seq<Proxy>)
    ensures failed == Failed(proxies, statuses)
  {
    failed := [];
    for i := 0 to |proxies|
      invariant failed == Failed(proxies[..i], statuses)
    {
      assert proxies[..i + 1][..i] == proxies[..i];
      if proxies[i].id in statuses && !statuses[proxies[i].id].online {
        failed := failed + [proxies[i]];
      }
    }
    assert proxies[..|proxies|] == proxies;
  }

  /** correlateMassIncidents. */
  method Correlate(proxies: seq<Proxy>, statuses: map<string, Failure>) returns (candidates: seq<Candidate>)
    ensures Correlates(candidates, proxies, statuses)
  {
    var failed := FailedProxies(proxies, statuses);
    var all := MassCandidate("global", proxies, failed, statuses);
    if all.Some? {
      return [all.value];
    }
    candidates := [];
    var left := Subscriptions(proxies);
    ghost var done: set<string> := {};
    while left != {}
      invariant done !! left && done + left == Subscriptions(proxies)
      invariant BySubscription(candidates, proxies, failed, statuses, done)
      decreases left
    {
      var subscription :| subscription in left;
      candidates := CorrelateOne(candidates, proxies, failed, statuses, subscription, done);
      left, done := left - {subscription}, done + {subscription};
    }
    assert done == Subscriptions(proxies);
    ghost var found := candidates;
    candidates := SortByScope(candidates);
    SameCandidates(found, candidates, proxies, failed, statuses);
  }

  method SortByScope(candidates: seq<Candidate>) returns (r: seq<Candidate>)
    ensures multiset(r) == multiset(candidates) && InScopeOrder(r)
  {
    r := [];
    for i := 0 to |candidates|
      invariant multiset(r) == multiset(candidates[..i]) && InScopeOrder(r)
    {
      assert candidates[..i + 1] == candidates[..i] + [candidates[i]];
      r := InsertByScope(r, candidates[i]);
    }
    assert candidates[..|candidates|] == candidates;
  }

  method InsertByScope(s: seq<Candidate>, x: Candidate) returns (r: seq<Candidate>)
    requires InScopeOrder(s)
    ensures InScopeOrder(r) && multiset(r) == multiset(s) + multiset{x}
  {
    var i := 0;
    while i < |s| && Before(s[i].scope, x.scope)
      invariant 0 <= i <= |s|
      invariant forall j :: 0 <= j < i ==> Before(s[j].scope, x.scope)
    {
      i := i + 1;
    }
    r := s[..i] + [x] + s[i..];
    assert s == s[..i] + s[i..];
    ScopeInserted(s, x, i);
  }

  predicate NotAfter(a: Candidate, b: Candidate) {
    a.scope == b.scope || Before(a.scope, b.scope)
  }

  lemma ScopeInserted(s: seq<Candidate>, x: Candidate, i: nat)
    requires InScopeOrder(s) && i <= |s| && (i < |s| ==> !Before(s[i].scope, x.scope))
    requires forall j :: 0 <= j < i ==> Before(s[j].scope, x.scope)
    ensures InScopeOrder(s[..i] + [x] + s[i..])
  {
    forall k | i <= k < |s| ensures NotAfter(x, s[k]) {
      BeforeIsTotal(x.scope, s[i].scope);
      assert k > i ==> NotAfter(s[i], s[k]);
      if x.scope != s[i].scope && s[i].scope != s[k].scope {
        BeforeIsTransitive(x.scope, s[i].scope, s[k].scope);
      }
    }
    StillInOrder(s, x, i, (a, b) => NotAfter(a, b));
  }

  lemma SameCovered(a: seq<Candidate>, b: seq<Candidate>, scope: string)
    requires multiset(a) == multiset(b) && Covered(a, scope)
    ensures Covered(b, scope)
  {
    var k :| 0 <= k < |a| && a[k].scope == scope;
    assert a[k] in multiset(b);
    var i :| 0 <= i < |b| && b[i] == a[k];
  }

  lemma SameCandidates(a: seq<Candidate>, b: seq<Candidate>, proxies: seq<Proxy>, failed: seq<Proxy>, statuses: map<string, Failure>)
    requires multiset(a) == multiset(b) && IsFailing(failed, statuses)
    requires BySubscription(a, proxies, failed, statuses, Subscriptions(proxies))
    ensures BySubscription(b, proxies, failed, statuses, Subscriptions(proxies))
  {
    forall c | c in b ensures OfSubscription(c, proxies, failed, statuses) {
      assert c in multiset(b);
    }
    forall s | s in Subscriptions(proxies) && SubscriptionFails(proxies, failed, statuses, s) ensures Covered(b, ScopeOf(s)) {
      SameCovered(a, b, ScopeOf(s));
    }
  }

  method CorrelateOne(candidates: seq<Candidate>, proxies: seq<Proxy>, failed: seq<Proxy>, statuses: map<string, Failure>,
                      subscription: string, ghost done: set<string>)
    returns (more: seq<Candidate>)
    requires IsFailing(failed, statuses) && subscription in Subscriptions(proxies)
    requires forall p :: p in failed ==> p in proxies
    requires BySubscription(candidates, proxies, failed, statuses, done)
    ensures BySubscription(more, proxies, failed, statuses, done + {subscription})
  {
    var c := MassCandidate(ScopeOf(subscription), InSubscription(proxies, subscription), InSubscription(failed, subscription), statuses);
    if c.None? {
      assert !SubscriptionFails(proxies, failed, statuses, subscription);
      return candidates;
    }
    assert OfSubscription(c.value, proxies, failed, statuses);
    OneMoreCandidate(candidates, c.value, proxies, failed, statuses, subscription, done);
    return candidates + [c.value];
  }

  lemma OneMoreCandidate(candidates: seq<Candidate>, c: Candidate, proxies: seq<Proxy>, failed: seq<Proxy>, statuses: map<string, Failure>,
                         subscription: string, done: set<string>)
    requires IsFailing(failed, statuses) && BySubscription(candidates, proxies, failed, statuses, done)
    requires OfSubscription(c, proxies, failed, statuses) && c.scope == ScopeOf(subscription)
    ensures BySubscription(candidates + [c], proxies, failed, statuses, done + {subscription})
  {
    var more := candidates + [c];
    forall s {:trigger ScopeOf(s)} | s in done + {subscription} && SubscriptionFails(proxies, failed, statuses, s) ensures Covered(more, ScopeOf(s)) {
      assert s != subscription ==> Covered(candidates, ScopeOf(s));
      CoveredMore(candidates, c, ScopeOf(s));
    }
  }

  lemma CoveredMore(candidates: seq<Candidate>, c: Candidate, scope: string)
    ensures Covered(candidates + [c], scope) <==> Covered(candidates, scope) || c.scope == scope
  {
    var more := candidates + [c];
    assert more[|candidates|] == c;
    if i :| 0 <= i < |candidates| && candidates[i].scope == scope {
      assert more[i].scope == scope;
    }
  }
}
