/** The incident journal over checks: opening, updating, resolving and pruning incidents. */
module IncidentJournal {
  import opened Wrappers
  import opened SortedLists
  import opened Incidents

  function NodeScope(id: string): string {
    "node:" + id
  }

  lemma NodeScopeIsInjective(a: string, b: string)
    requires NodeScope(a) == NodeScope(b)
    ensures a == b
  {
    assert NodeScope(a)[5..] == a && NodeScope(b)[5..] == b;
  }

  // ----- single changes -----

  lemma ReplaceKeepsOneActive(incidents: seq<Incident>, i: nat, incident: Incident)
    requires OneActive(incidents) && i < |incidents|
    requires incident.kind == incidents[i].kind && incident.scope == incidents[i].scope && (incident.active ==> incidents[i].active)
    ensures OneActive(incidents[i := incident])
  {
  }

  lemma AppendKeepsOneActive(incidents: seq<Incident>, incident: Incident)
    requires OneActive(incidents) && !SomeActive(incidents, incident.kind, incident.scope)
    ensures OneActive(incidents + [incident])
  {
  }

  /** The one active incident of a kind and scope is an exact statement about both. */
  lemma ResolvingEndsIt(incidents: seq<Incident>, i: nat, now: Time)
    requires OneActive(incidents) && i < |incidents| && incidents[i].active
    ensures var r := incidents[i := Resolved(incidents[i], now)];
            && OneActive(r) && !SomeActive(r, incidents[i].kind, incidents[i].scope)
            && forall kind, scope :: (kind != incidents[i].kind || scope != incidents[i].scope) ==>
                 (SomeActive(r, kind, scope) <==> SomeActive(incidents, kind, scope))
  {
    var r := incidents[i := Resolved(incidents[i], now)];
    forall kind, scope | kind != incidents[i].kind || scope != incidents[i].scope
      ensures SomeActive(r, kind, scope) <==> SomeActive(incidents, kind, scope)
    {
      ReplaceKeepsOthers(incidents, i, r[i], kind, scope);
    }
  }

  lemma ReplaceKeepsOthers(incidents: seq<Incident>, i: nat, incident: Incident, kind: Kind, scope: string)
    requires i < |incidents| && incident.kind == incidents[i].kind && incident.scope == incidents[i].scope
    requires incident.active == incidents[i].active || kind != incident.kind || scope != incident.scope
    ensures SomeActive(incidents[i := incident], kind, scope) <==> SomeActive(incidents, kind, scope)
  {
    var r := incidents[i := incident];
    if SomeActive(incidents, kind, scope) {
      var k :| 0 <= k < |incidents| && incidents[k].active && incidents[k].kind == kind && incidents[k].scope == scope;
      assert r[k].active && r[k].kind == kind && r[k].scope == scope;
    }
    if SomeActive(r, kind, scope) {
      var k :| 0 <= k < |r| && r[k].active && r[k].kind == kind && r[k].scope == scope;
      assert incidents[k].active && incidents[k].kind == kind && incidents[k].scope == scope;
    }
  }

  lemma AppendOpens(incidents: seq<Incident>, incident: Incident, kind: Kind, scope: string)
    requires incident.active
    ensures SomeActive(incidents + [incident], kind, scope) <==>
            SomeActive(incidents, kind, scope) || (kind == incident.kind && scope == incident.scope)
  {
    var r := incidents + [incident];
    assert r[|incidents|] == incident;
    if SomeActive(incidents, kind, scope) {
      var k :| 0 <= k < |incidents| && incidents[k].active && incidents[k].kind == kind && incidents[k].scope == scope;
      assert r[k] == incidents[k];
    }
  }

  /** Only the active incident of this kind and scope may differ between the two journals. */
  ghost predicate OnlyScope(before: seq<Incident>, after: seq<Incident>, kind: Kind, scope: string) {
    forall k, s :: k != kind || s != scope ==> (SomeActive(after, k, s) <==> SomeActive(before, k, s))
  }

  /** Nothing of another kind or scope came or went. */
  ghost predicate OthersStay(before: seq<Incident>, after: seq<Incident>, kind: Kind, scope: string) {
    forall x: Incident :: x.kind != kind || x.scope != scope ==> (x in after <==> x in before)
  }

  /** The active incident of this kind and scope, if there is one, ended. */
  ghost predicate Ended(before: seq<Incident>, after: seq<Incident>, kind: Kind, scope: string, now: Time) {
    && |after| == |before|
    && forall i :: 0 <= i < |before| ==> after[i] == if IsActive(before, i, kind, scope) then Resolved(before[i], now) else before[i]
  }

  function Renewed(incident: Incident, cause: string, now: Time): Incident {
    incident.(cause := cause, updatedAt := now, seconds := Duration(incident.startedAt, now))
  }

  /** What a check writes about one node: an outage opens an incident at its start or renews the cause
      of the open one, and its end resolves it. */
  ghost predicate Follows(before: seq<Incident>, after: seq<Incident>, id: string, f: Failure, now: Time) {
    if !f.offline then Ended(before, after, NodeIncident, NodeScope(id), now)
    else if SomeActive(before, NodeIncident, NodeScope(id)) then
      && |after| == |before|
      && forall i :: 0 <= i < |before| ==>
           after[i] == if IsActive(before, i, NodeIncident, NodeScope(id)) then Renewed(before[i], CodeOf(f), now) else before[i]
    else
      after == before + [Incident(NodeIncident, NodeScope(id), true, [id], 1, 1, CodeOf(f), if f.downSince == 0 then now else f.downSince, now, 0, 0)]
  }

  /** Every active incident of this node tells the present cause. */
  ghost predicate Told(incidents: seq<Incident>, id: string, f: Failure, now: Time) {
    forall x :: x in incidents && x.active && x.kind.NodeIncident? && x.scope == NodeScope(id) ==> x.cause == CodeOf(f) && x.updatedAt == now
  }

  lemma FollowsTells(before: seq<Incident>, after: seq<Incident>, id: string, f: Failure, now: Time)
    requires Follows(before, after, id, f, now)
    ensures f.offline ==> Told(after, id, f, now)
    ensures OthersStay(before, after, NodeIncident, NodeScope(id))
  {
    forall x: Incident | x.kind != NodeIncident || x.scope != NodeScope(id) ensures x in after <==> x in before {
      if x in before {
        var i :| 0 <= i < |before| && before[i] == x;
        assert after[i] == x;
      }
    }
    if f.offline {
      forall x | x in after && x.active && x.kind.NodeIncident? && x.scope == NodeScope(id) ensures x.cause == CodeOf(f) && x.updatedAt == now {
        var i :| 0 <= i < |after| && after[i] == x;
        assert i < |before| ==> IsActive(before, i, NodeIncident, NodeScope(id));
      }
    }
  }

  class Journal {
    var incidents: seq<Incident>

    ghost predicate Valid()
      reads this
    {
      OneActive(incidents)
    }

    constructor ()
      ensures Valid() && incidents == []
    {
      incidents := [];
    }

    /** findActiveIncidentLocked. */
    method Find(kind: Kind, scope: string) returns (found: Option<nat>)
      ensures found.None? <==> !SomeActive(incidents, kind, scope)
      ensures found.Some? ==> IsActive(incidents, found.value, kind, scope)
    {
      var i := |incidents|;
      while i > 0
        invariant 0 <= i <= |incidents|
        invariant forall k :: i <= k < |incidents| ==> !IsActive(incidents, k, kind, scope)
      {
        i := i - 1;
        if incidents[i].kind == kind && incidents[i].scope == scope && incidents[i].active {
          return Some(i);
        }
      }
      if k :| 0 <= k < |incidents| && incidents[k].active && incidents[k].kind == kind && incidents[k].scope == scope {
        assert IsActive(incidents, k, kind, scope);
      }
      return None;
    }

    /** Resolve the active incident of this kind and scope, if there is one. */
    method ResolveScope(kind: Kind, scope: string, now: Time)
      requires Valid()
      modifies this
      ensures Valid() && !SomeActive(incidents, kind, scope) && OnlyScope(old(incidents), incidents, kind, scope)
      ensures Ended(old(incidents), incidents, kind, scope, now)
    {
      var found := Find(kind, scope);
      if found.Some? {
        ResolvingEndsIt(incidents, found.value, now);
        incidents := incidents[found.value := Resolved(incidents[found.value], now)];
      }
    }

    /** Put this data on the active incident of the kind and scope, opening one if there is none. */
    method Report(kind: Kind, scope: string, ids: seq<string>, total: nat, cause: string, startedAt: Time, now: Time)
      requires Valid()
      modifies this
      ensures Valid() && SomeActive(incidents, kind, scope) && OnlyScope(old(incidents), incidents, kind, scope)
      ensures |incidents| == |old(incidents)| + if SomeActive(old(incidents), kind, scope) then 0 else 1
      ensures forall i :: 0 <= i < |old(incidents)| ==>
                && incidents[i].kind == old(incidents)[i].kind && incidents[i].scope == old(incidents)[i].scope
                && (!IsActive(old(incidents), i, kind, scope) ==> incidents[i] == old(incidents)[i])
      ensures forall i :: |old(incidents)| <= i < |incidents| ==> incidents[i].kind == kind && incidents[i].scope == scope
      ensures forall i :: 0 <= i < |incidents| && IsActive(incidents, i, kind, scope) ==>
                && incidents[i].ids == ids && incidents[i].affected == |ids| && incidents[i].total == total
                && incidents[i].cause == cause && incidents[i].updatedAt == now
                && incidents[i].resolvedAt == (if i < |old(incidents)| then old(incidents)[i].resolvedAt else 0)
                && incidents[i].seconds == (if i < |old(incidents)| then Duration(incidents[i].startedAt, now) else 0)
                && incidents[i].startedAt == if i < |old(incidents)| then old(incidents)[i].startedAt else startedAt
    {
      var found := Find(kind, scope);
      if found.None? {
        Open(Incident(kind, scope, true, ids, |ids|, total, cause, startedAt, now, 0, 0));
        forall i | 0 <= i < |old(incidents)| ensures !IsActive(incidents, i, kind, scope) {
          assert incidents[i] == old(incidents)[i];
        }
      } else {
        Renew(found.value, Renewed(incidents[found.value], cause, now).(ids := ids, affected := |ids|, total := total));
      }
    }

    method Open(incident: Incident)
      requires Valid() && incident.active && !SomeActive(incidents, incident.kind, incident.scope)
      modifies this
      ensures Valid() && incidents == old(incidents) + [incident]
      ensures OnlyScope(old(incidents), incidents, incident.kind, incident.scope) && SomeActive(incidents, incident.kind, incident.scope)
    {
      AppendKeepsOneActive(incidents, incident);
      forall k, s ensures SomeActive(incidents + [incident], k, s) <==> SomeActive(incidents, k, s) || (k == incident.kind && s == incident.scope) {
        AppendOpens(incidents, incident, k, s);
      }
      incidents := incidents + [incident];
    }

    method Renew(i: nat, renewed: Incident)
      requires Valid() && i < |incidents| && incidents[i].active
      requires renewed.active && renewed.kind == incidents[i].kind && renewed.scope == incidents[i].scope
      modifies this
      ensures Valid() && incidents == old(incidents)[i := renewed]
      ensures OnlyScope(old(incidents), incidents, renewed.kind, renewed.scope) && SomeActive(incidents, renewed.kind, renewed.scope)
    {
      ReplaceKeepsOneActive(incidents, i, renewed);
      forall k, s ensures SomeActive(incidents[i := renewed], k, s) <==> SomeActive(incidents, k, s) {
        ReplaceKeepsOthers(incidents, i, renewed, k, s);
      }
      incidents := incidents[i := renewed];
      assert incidents[i].active && incidents[i].kind == renewed.kind && incidents[i].scope == renewed.scope;
    }

    /** updateNodeIncidentLocked: a node has an active incident exactly while it is offline. */
    method UpdateNode(id: string, f: Failure, now: Time)
      requires Valid()
      modifies this
      ensures Valid() && (id == "" ==> incidents == old(incidents))
      ensures id != "" ==>
                && Follows(old(incidents), incidents, id, f, now) && OnlyScope(old(incidents), incidents, NodeIncident, NodeScope(id))
                && (SomeActive(incidents, NodeIncident, NodeScope(id)) <==> f.offline)
    {
      if id == "" {
        return;
      }
      if !f.offline {
        ResolveScope(NodeIncident, NodeScope(id), now);
        return;
      }
      var found := Find(NodeIncident, NodeScope(id));
      if found.None? {
        Open(Incident(NodeIncident, NodeScope(id), true, [id], 1, 1, CodeOf(f), if f.downSince == 0 then now else f.downSince, now, 0, 0));
      } else {
        Renew(found.value, Renewed(incidents[found.value], CodeOf(f), now));
      }
    }

    /** The first loop of updateMassIncidentsLocked. */
    method ReportCandidates(candidates: seq<Candidate>, now: Time)
      requires Valid()
      modifies this
      ensures Valid()
      ensures forall k, s :: SomeActive(incidents, k, s) <==> SomeActive(old(incidents), k, s) || (k == MassIncident && Covered(candidates, s))
      ensures forall i, k :: 0 <= i < |incidents| && LastFor(candidates, k) && IsActive(incidents, i, MassIncident, candidates[k].scope) ==>
                Shows(incidents[i], candidates[k])
      ensures NodesStay(old(incidents), incidents)
    {
      for n := 0 to |candidates|
        invariant Valid()
        invariant forall k, s :: SomeActive(incidents, k, s) <==> SomeActive(old(incidents), k, s) || (k == MassIncident && Covered(candidates[..n], s))
        invariant forall i, k :: 0 <= i < |incidents| && LastFor(candidates[..n], k) && IsActive(incidents, i, MassIncident, candidates[k].scope) ==>
                    Shows(incidents[i], candidates[k])
        invariant NodesStay(old(incidents), incidents)
      {
        ghost var before := incidents;
        var c := candidates[n];
        Report(MassIncident, c.scope, c.ids, c.total, c.cause, now, now);
        ReportKeepsNodes(before, incidents, c.scope);
        forall s ensures Covered(candidates[..n + 1], s) <==> Covered(candidates[..n], s) || s == c.scope {
          CoveredByOneMore(candidates, n, s);
        }
        forall i, k | 0 <= i < |incidents| && LastFor(candidates[..n + 1], k) && IsActive(incidents, i, MassIncident, candidates[k].scope)
          ensures Shows(incidents[i], candidates[k])
        {
          if k < n {
            assert candidates[..n + 1][n] == c && candidates[..n + 1][k] == candidates[k];
            LastForFewer(candidates, n, k);
            assert IsActive(before, i, MassIncident, candidates[k].scope);
          }
        }
      }
      assert candidates[..|candidates|] == candidates;
    }

    /** The second loop: mass incidents that are not correlated any more end. */
    method ResolveMass(candidates: seq<Candidate>, now: Time)
      requires Valid()
      modifies this
      ensures Valid() && |incidents| == |old(incidents)|
      ensures forall i :: 0 <= i < |incidents| ==> incidents[i] == Kept(old(incidents)[i], candidates, now)
    {
      for i := 0 to |incidents|
        invariant Valid() && |incidents| == |old(incidents)|
        invariant forall k :: 0 <= k < |incidents| ==> incidents[k] == if k < i then Kept(old(incidents)[k], candidates, now) else old(incidents)[k]
      {
        ReplaceKeepsOneActive(incidents, i, Kept(incidents[i], candidates, now));
        if incidents[i].kind.MassIncident? && incidents[i].active && !Covered(candidates, incidents[i].scope) {
          incidents := incidents[i := Resolved(incidents[i], now)];
        }
      }
    }

    /** updateMassIncidentsLocked: afterwards the active mass scopes are the correlated ones. */
    method UpdateMass(candidates: seq<Candidate>, now: Time)
      requires Valid()
      modifies this
      ensures Valid()
      ensures forall s :: SomeActive(incidents, MassIncident, s) <==> Covered(candidates, s)
      ensures forall s :: SomeActive(incidents, NodeIncident, s) <==> SomeActive(old(incidents), NodeIncident, s)
      ensures AllShow(incidents, candidates) && NodesStay(old(incidents), incidents)
    {
      ReportCandidates(candidates, now);
      ghost var reported := incidents;
      ResolveMass(candidates, now);
      forall k, s ensures SomeActive(incidents, k, s) <==> SomeActive(reported, k, s) && (k.NodeIncident? || Covered(candidates, s)) {
        KeptActive(reported, incidents, candidates, now, k, s);
      }
      KeptShow(reported, incidents, candidates, now);
    }

    /** pruneIncidentsLocked: active incidents always stay, and of the resolved ones the newest. */
    method Prune()
      requires Valid()
      modifies this
      ensures Valid() && (|old(incidents)| <= MAX_INCIDENTS ==> incidents == old(incidents))
      ensures forall k, s :: SomeActive(incidents, k, s) <==> SomeActive(old(incidents), k, s)
      ensures (forall x :: x in incidents ==> x in old(incidents)) && (forall x :: x in old(incidents) && x.active ==> x in incidents)
      ensures |old(incidents)| > MAX_INCIDENTS ==>
                exists resolved: seq<Incident>, n: nat ::
                  && n <= |resolved| && NewestFirst(resolved) && multiset(resolved) == multiset(Those(old(incidents), false))
                  && incidents == Those(old(incidents), true) + resolved[..n]
                  && n == Least(|resolved|, MAX_INCIDENTS - |Those(old(incidents), true)|)
    {
      if |incidents| <= MAX_INCIDENTS {
        return;
      }
      var active, resolved := Split(incidents);
      resolved := SortByStart(resolved);
      var keep := if MAX_INCIDENTS < |active| then 0 else MAX_INCIDENTS - |active|;
      var n := if |resolved| > keep then keep else |resolved|;
      PrunedKeeps(incidents, resolved, n);
      incidents := active + resolved[..n];
    }

    /** The journal's part of recordAvailability: paused and unwatched nodes are resolved, watched ones
        follow their status, then mass incidents are correlated and the journal is pruned. */
    method Check(paused: set<string>, proxies: seq<Proxy>, statuses: map<string, Failure>, now: Time)
      returns (candidates: seq<Candidate>)
      requires Valid() && forall p :: p in proxies ==> p.id !in paused && p.id != ""
      modifies this
      ensures Valid() && Correlates(candidates, proxies, statuses)
      ensures forall s :: SomeActive(incidents, MassIncident, s) <==> Covered(candidates, s)
      ensures AllShow(incidents, candidates)
      ensures forall id :: Watched(proxies, id) && id in statuses && statuses[id].offline ==> Told(incidents, id, statuses[id], now)
      ensures forall id :: SomeActive(incidents, NodeIncident, NodeScope(id)) <==>
                if id in paused then false
                else if Watched(proxies, id) && id in statuses then statuses[id].offline
                else SomeActive(old(incidents), NodeIncident, NodeScope(id))
    {
      ResolvePaused(paused, now);
      UpdateNodes(proxies, statuses, now);
      candidates := Correlate(proxies, statuses);
      ghost var followed := incidents;
      UpdateMass(candidates, now);
      ghost var updated := incidents;
      Prune();
      forall id | Watched(proxies, id) && id in statuses && statuses[id].offline ensures Told(incidents, id, statuses[id], now) {
        assert Told(followed, id, statuses[id], now);
      }
    }

    method ResolvePaused(paused: set<string>, now: Time)
      requires Valid()
      modifies this
      ensures Valid()
      ensures forall id :: SomeActive(incidents, NodeIncident, NodeScope(id)) <==> id !in paused && SomeActive(old(incidents), NodeIncident, NodeScope(id))
      ensures |incidents| == |old(incidents)| && forall i :: 0 <= i < |incidents| ==> SameOrEnded(old(incidents)[i], incidents[i], now)
    {
      var left := paused;
      while left != {}
        invariant left <= paused && Valid()
        invariant |incidents| == |old(incidents)| && forall i :: 0 <= i < |incidents| ==> SameOrEnded(old(incidents)[i], incidents[i], now)
        invariant forall id :: SomeActive(incidents, NodeIncident, NodeScope(id)) <==>
                    id !in paused - left && SomeActive(old(incidents), NodeIncident, NodeScope(id))
        decreases left
      {
        var id :| id in left;
        left := left - {id};
        ghost var before := incidents;
        ResolveScope(NodeIncident, NodeScope(id), now);
        OthersKept(before, incidents, id);
      }
    }

    method UpdateNodes(proxies: seq<Proxy>, statuses: map<string, Failure>, now: Time)
      requires Valid() && forall p :: p in proxies ==> p.id != ""
      modifies this
      ensures Valid()
      ensures Followed(old(incidents), incidents, proxies, statuses, now)
    {
      for i := 0 to |proxies|
        invariant Valid() && Followed(old(incidents), incidents, proxies[..i], statuses, now)
      {
        ghost var middle := incidents;
        var id := proxies[i].id;
        if id in statuses {
          UpdateNode(id, statuses[id], now);
        }
        FollowedStep(old(incidents), middle, incidents, proxies, i, statuses, now);
      }
      assert proxies[..|proxies|] == proxies;
    }

    /** PauseProjectMonitoring: every active incident ends, unless the journal cannot be saved. */
    method Pause(saved: bool, now: Time)
      requires Valid()
      modifies this
      ensures Valid() && |incidents| == |old(incidents)|
      ensures forall i :: 0 <= i < |incidents| ==>
                incidents[i] == if saved && old(incidents)[i].active then Resolved(old(incidents)[i], now) else old(incidents)[i]
    {
      var previous := incidents;
      for i := 0 to |incidents|
        invariant Valid() && |incidents| == |previous|
        invariant forall k :: 0 <= k < |incidents| ==> incidents[k] == if k < i && previous[k].active then Resolved(previous[k], now) else previous[k]
      {
        if incidents[i].active {
          ReplaceKeepsOneActive(incidents, i, Resolved(incidents[i], now));
          incidents := incidents[i := Resolved(incidents[i], now)];
        }
      }
      if !saved {
        incidents := previous;
      }
    }
  }

  predicate SameOrEnded(before: Incident, after: Incident, now: Time) {
    after == before || (before.active && before.kind.NodeIncident? && after == Resolved(before, now))
  }

  predicate Watched(proxies: seq<Proxy>, id: string) {
    exists i :: 0 <= i < |proxies| && proxies[i].id == id
  }

  lemma WatchedOneMore(proxies: seq<Proxy>, i: nat, id: string)
    requires i < |proxies|
    ensures Watched(proxies[..i + 1], id) <==> Watched(proxies[..i], id) || id == proxies[i].id
  {
    var more := proxies[..i + 1];
    assert more[i] == proxies[i];
    if Watched(proxies[..i], id) {
      var k :| 0 <= k < i && proxies[..i][k].id == id;
      assert more[k].id == id;
    }
    if Watched(more, id) && id != proxies[i].id {
      var k :| 0 <= k < |more| && more[k].id == id;
      assert proxies[..i][k].id == id;
    }
  }

  /** What a check leaves of the node incidents: the watched ones follow their status. */
  ghost predicate Followed(before: seq<Incident>, after: seq<Incident>, proxies: seq<Proxy>, statuses: map<string, Failure>, now: Time) {
    && (forall id :: SomeActive(after, NodeIncident, NodeScope(id)) <==>
          if Watched(proxies, id) && id in statuses then statuses[id].offline else SomeActive(before, NodeIncident, NodeScope(id)))
    && (forall id :: Watched(proxies, id) && id in statuses && statuses[id].offline ==> Told(after, id, statuses[id], now))
  }

  lemma FollowedStep(before: seq<Incident>, middle: seq<Incident>, after: seq<Incident>, proxies: seq<Proxy>, i: nat, statuses: map<string, Failure>, now: Time)
    requires i < |proxies| && Followed(before, middle, proxies[..i], statuses, now)
    requires var id := proxies[i].id;
             if id in statuses then
               && Follows(middle, after, id, statuses[id], now) && OnlyScope(middle, after, NodeIncident, NodeScope(id))
               && (SomeActive(after, NodeIncident, NodeScope(id)) <==> statuses[id].offline)
             else after == middle
    ensures Followed(before, after, proxies[..i + 1], statuses, now)
  {
    var id := proxies[i].id;
    forall other ensures Watched(proxies[..i + 1], other) <==> Watched(proxies[..i], other) || other == id {
      WatchedOneMore(proxies, i, other);
    }
    if id in statuses {
      OthersKept(middle, after, id);
      FollowsTells(middle, after, id, statuses[id], now);
      forall other | other != id && Watched(proxies[..i], other) && other in statuses && statuses[other].offline
        ensures Told(after, other, statuses[other], now)
      {
        if NodeScope(other) == NodeScope(id) {
          NodeScopeIsInjective(other, id);
        }
        assert Told(middle, other, statuses[other], now);
      }
    }
  }

  lemma OthersKept(before: seq<Incident>, after: seq<Incident>, id: string)
    requires OnlyScope(before, after, NodeIncident, NodeScope(id))
    ensures forall other :: other != id ==> (SomeActive(after, NodeIncident, NodeScope(other)) <==> SomeActive(before, NodeIncident, NodeScope(other)))
  {
    forall other | other != id
      ensures SomeActive(after, NodeIncident, NodeScope(other)) <==> SomeActive(before, NodeIncident, NodeScope(other))
    {
      if NodeScope(other) == NodeScope(id) {
        NodeScopeIsInjective(other, id);
      }
    }
  }

  // ----- mass incidents -----

  /** No later candidate is of the same scope. */
  predicate LastFor(candidates: seq<Candidate>, k: int) {
    0 <= k < |candidates| && forall l :: k < l < |candidates| ==> candidates[l].scope != candidates[k].scope
  }

  predicate Shows(incident: Incident, c: Candidate) {
    incident.ids == c.ids && incident.affected == |c.ids| && incident.total == c.total && incident.cause == c.cause
  }

  /** Every active mass incident shows the last candidate of its scope. */
  ghost predicate AllShow(incidents: seq<Incident>, candidates: seq<Candidate>) {
    forall x, k :: x in incidents && LastFor(candidates, k) && x.active && x.kind.MassIncident? && x.scope == candidates[k].scope ==> Shows(x, candidates[k])
  }

  ghost predicate NodesStay(before: seq<Incident>, after: seq<Incident>) {
    forall x: Incident :: x.kind.NodeIncident? ==> (x in after <==> x in before)
  }

  lemma ReportKeepsNodes(before: seq<Incident>, after: seq<Incident>, scope: string)
    requires |before| <= |after|
    requires forall i :: 0 <= i < |before| ==> after[i].kind == before[i].kind && (!IsActive(before, i, MassIncident, scope) ==> after[i] == before[i])
    requires forall i :: |before| <= i < |after| ==> after[i].kind.MassIncident?
    ensures NodesStay(before, after)
  {
    forall x: Incident | x.kind.NodeIncident? ensures x in after <==> x in before {
      if x in before {
        var i :| 0 <= i < |before| && before[i] == x;
        assert after[i] == x;
      }
      if x in after {
        var i :| 0 <= i < |after| && after[i] == x;
        assert before[i] == x;
      }
    }
  }

  lemma KeptShow(before: seq<Incident>, after: seq<Incident>, candidates: seq<Candidate>, now: Time)
    requires |before| == |after| && forall i :: 0 <= i < |after| ==> after[i] == Kept(before[i], candidates, now)
    requires forall i, k :: 0 <= i < |before| && LastFor(candidates, k) && IsActive(before, i, MassIncident, candidates[k].scope) ==> Shows(before[i], candidates[k])
    ensures AllShow(after, candidates) && NodesStay(before, after)
  {
    forall x, k | x in after && LastFor(candidates, k) && x.active && x.kind.MassIncident? && x.scope == candidates[k].scope ensures Shows(x, candidates[k]) {
      var i :| 0 <= i < |after| && after[i] == x;
      assert IsActive(before, i, MassIncident, candidates[k].scope);
    }
    forall x: Incident | x.kind.NodeIncident? ensures x in after <==> x in before {
      if x in before {
        var i :| 0 <= i < |before| && before[i] == x;
        assert after[i] == x;
      }
      if x in after {
        var i :| 0 <= i < |after| && after[i] == x;
        assert before[i] == x;
      }
    }
  }

  function Kept(incident: Incident, candidates: seq<Candidate>, now: Time): Incident {
    if incident.kind.MassIncident? && incident.active && !Covered(candidates, incident.scope) then Resolved(incident, now) else incident
  }

  lemma CoveredByOneMore(candidates: seq<Candidate>, n: nat, s: string)
    requires n < |candidates|
    ensures Covered(candidates[..n + 1], s) <==> Covered(candidates[..n], s) || s == candidates[n].scope
  {
    var more := candidates[..n + 1];
    assert more[n] == candidates[n];
    if Covered(candidates[..n], s) {
      var i :| 0 <= i < n && candidates[..n][i].scope == s;
      assert more[i].scope == s;
    }
    if Covered(more, s) && s != candidates[n].scope {
      var i :| 0 <= i < |more| && more[i].scope == s;
      assert candidates[..n][i].scope == s;
    }
  }

  lemma LastForFewer(candidates: seq<Candidate>, n: nat, k: int)
    requires n < |candidates| && LastFor(candidates[..n + 1], k) && k < n
    ensures LastFor(candidates[..n], k) && candidates[k].scope != candidates[n].scope
  {
    var more := candidates[..n + 1];
    assert more[n].scope != more[k].scope;
    forall l | k < l < n ensures candidates[..n][l].scope != candidates[..n][k].scope {
      assert more[l].scope != more[k].scope;
    }
  }

  lemma KeptActive(before: seq<Incident>, after: seq<Incident>, candidates: seq<Candidate>, now: Time, k: Kind, s: string)
    requires |before| == |after| && forall i :: 0 <= i < |after| ==> after[i] == Kept(before[i], candidates, now)
    ensures SomeActive(after, k, s) <==> SomeActive(before, k, s) && (k.NodeIncident? || Covered(candidates, s))
  {
    if SomeActive(before, k, s) && (k.NodeIncident? || Covered(candidates, s)) {
      var i :| 0 <= i < |before| && before[i].active && before[i].kind == k && before[i].scope == s;
      assert after[i] == before[i];
    }
    if SomeActive(after, k, s) {
      var i :| 0 <= i < |after| && after[i].active && after[i].kind == k && after[i].scope == s;
      assert before[i].active && before[i].kind == k && before[i].scope == s;
    }
  }

  /** A global incident and a subscription's are never correlated together, so they are never active
      together after a check. */
  lemma NeverGlobalAndSubscription(candidates: seq<Candidate>, proxies: seq<Proxy>, statuses: map<string, Failure>, subscription: string)
    requires Correlates(candidates, proxies, statuses)
    ensures !(Covered(candidates, "global") && Covered(candidates, ScopeOf(subscription)))
  {
    var failed := Failed(proxies, statuses);
    if FailsTogether(proxies, failed, statuses) {
      ScopeIsNotGlobal(subscription);
      assert candidates[0].scope == "global";
    } else {
      NoGlobalAmongSubscriptions(candidates, proxies, failed, statuses, Subscriptions(proxies));
    }
  }

  lemma NoGlobalAmongSubscriptions(candidates: seq<Candidate>, proxies: seq<Proxy>, failed: seq<Proxy>, statuses: map<string, Failure>, subscriptions: set<string>)
    requires IsFailing(failed, statuses) && BySubscription(candidates, proxies, failed, statuses, subscriptions)
    ensures !Covered(candidates, "global")
  {
    forall i | 0 <= i < |candidates| ensures candidates[i].scope != "global" {
      var c := candidates[i];
      assert OfSubscription(c, proxies, failed, statuses);
      var s :| s in Subscriptions(proxies) && IsSubscriptionCandidate(c, proxies, failed, statuses, s);
      ScopeIsNotGlobal(s);
    }
  }

  lemma ScopeIsNotGlobal(subscription: string)
    ensures ScopeOf(subscription) != "global"
  {
    assert ScopeOf(subscription)[0] == 's';
  }

  // ----- pruning -----

  ghost predicate NewestFirst(s: seq<Incident>) {
    forall i, j :: 0 <= i < j < |s| ==> s[i].startedAt >= s[j].startedAt
  }

  function Least(a: int, b: int): int {
    if b < 0 then 0 else if a < b then a else b
  }

  /** The active incidents, or the resolved ones, in journal order. */
  function Those(incidents: seq<Incident>, active: bool): seq<Incident> {
    if incidents == [] then []
    else
      var before := Those(incidents[..|incidents| - 1], active);
      if incidents[|incidents| - 1].active == active then before + [incidents[|incidents| - 1]] else before
  }

  lemma {:induction false} ThoseMembers(incidents: seq<Incident>, active: bool)
    ensures forall x :: x in Those(incidents, active) <==> x in incidents && x.active == active
    decreases |incidents|
  {
    if incidents != [] {
      ThoseMembers(incidents[..|incidents| - 1], active);
      assert incidents == incidents[..|incidents| - 1] + [incidents[|incidents| - 1]];
    }
  }

  lemma {:induction false} ThoseKeepOneActive(incidents: seq<Incident>)
    requires OneActive(incidents)
    ensures OneActive(Those(incidents, true))
    decreases |incidents|
  {
    if incidents != [] {
      var before := incidents[..|incidents| - 1];
      var last := incidents[|incidents| - 1];
      ThoseKeepOneActive(before);
      ThoseMembers(before, true);
      if last.active {
        forall x | x in Those(before, true) ensures x.kind != last.kind || x.scope != last.scope {
          var i :| 0 <= i < |before| && before[i] == x;
          assert incidents[i] == x;
        }
        forall i | 0 <= i < |Those(before, true)| ensures Those(before, true)[i] in Those(before, true) {
        }
      }
    }
  }

  method Split(incidents: seq<Incident>) returns (active: seq<Incident>, resolved: seq<Incident>)
    ensures active == Those(incidents, true) && resolved == Those(incidents, false)
  {
    active, resolved := [], [];
    for i := 0 to |incidents|
      invariant active == Those(incidents[..i], true) && resolved == Those(incidents[..i], false)
    {
      assert incidents[..i + 1][..i] == incidents[..i];
      if incidents[i].active {
        active := active + [incidents[i]];
      } else {
        resolved := resolved + [incidents[i]];
      }
    }
    assert incidents[..|incidents|] == incidents;
  }

  method SortByStart(s: seq<Incident>) returns (r: seq<Incident>)
    ensures NewestFirst(r) && multiset(r) == multiset(s)
  {
    r := [];
    for i := 0 to |s|
      invariant NewestFirst(r) && multiset(r) == multiset(s[..i])
    {
      assert s[..i + 1] == s[..i] + [s[i]];
      r := InsertByStart(r, s[i]);
    }
    assert s[..|s|] == s;
  }

  method InsertByStart(s: seq<Incident>, x: Incident) returns (r: seq<Incident>)
    requires NewestFirst(s)
    ensures NewestFirst(r) && multiset(r) == multiset(s) + multiset{x}
  {
    var i := 0;
    while i < |s| && s[i].startedAt > x.startedAt
      invariant 0 <= i <= |s|
      invariant forall j :: 0 <= j < i ==> s[j].startedAt > x.startedAt
    {
      i := i + 1;
    }
    r := s[..i] + [x] + s[i..];
    OneMoreElement(s, x, i);
    StillInOrder(s, x, i, (a: Incident, b: Incident) => a.startedAt >= b.startedAt);
  }

  lemma PrunedKeeps(incidents: seq<Incident>, resolved: seq<Incident>, n: nat)
    requires OneActive(incidents) && n <= |resolved| && multiset(resolved) == multiset(Those(incidents, false))
    ensures OneActive(Those(incidents, true) + resolved[..n])
    ensures forall k, s :: SomeActive(Those(incidents, true) + resolved[..n], k, s) <==> SomeActive(incidents, k, s)
    ensures forall x :: x in Those(incidents, true) + resolved[..n] ==> x in incidents
    ensures forall x :: x in incidents && x.active ==> x in Those(incidents, true)
  {
    var active := Those(incidents, true);
    var pruned := active + resolved[..n];
    ThoseMembers(incidents, true);
    ThoseMembers(incidents, false);
    ThoseKeepOneActive(incidents);
    forall i | 0 <= i < |resolved| ensures !resolved[i].active && resolved[i] in incidents {
      assert resolved[i] in multiset(resolved);
    }
    forall k, s ensures SomeActive(pruned, k, s) <==> SomeActive(incidents, k, s) {
      ActiveAmong(incidents, active, k, s);
      if SomeActive(active, k, s) {
        var i :| 0 <= i < |active| && active[i].active && active[i].kind == k && active[i].scope == s;
        assert pruned[i] == active[i];
      }
    }
  }

  lemma ActiveAmong(incidents: seq<Incident>, active: seq<Incident>, k: Kind, s: string)
    requires forall x :: x in active <==> x in incidents && x.active
    ensures SomeActive(active, k, s) <==> SomeActive(incidents, k, s)
  {
    if SomeActive(incidents, k, s) {
      var i :| 0 <= i < |incidents| && incidents[i].active && incidents[i].kind == k && incidents[i].scope == s;
      assert incidents[i] in active;
    }
    if SomeActive(active, k, s) {
      var i :| 0 <= i < |active| && active[i].active && active[i].kind == k && active[i].scope == s;
      assert active[i] in incidents;
    }
  }
}
