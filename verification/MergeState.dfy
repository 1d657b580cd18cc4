/**
  Merging a retired node into an active one in the node registry. Texts arrive trimmed; the geo
  fields of a record are not modelled.
*/
module MergeState {
  import opened Wrappers
  import opened SortedLists
  import opened MergeHistory

  const MAX_INT64 := 0x7fff_ffff_ffff_ffff
  const MIN_INT64 := -0x8000_0000_0000_0000

  predicate IsInt64(x: int) {
    MIN_INT64 <= x <= MAX_INT64
  }

  /** Two's complement wrap-around to 64 bits. */
  function Wrapped(x: int): (r: int)
    ensures IsInt64(r) && (IsInt64(x) ==> r == x)
  {
    (x - MIN_INT64) % 0x1_0000_0000_0000_0000 + MIN_INT64
  }

  /** addInt64 checks both ends. */
  function AddInt64(first: int, second: int): (r: Option<int>)
    requires IsInt64(first) && IsInt64(second)
  {
    if second > 0 && first > Wrapped(MAX_INT64 - second) then None
    else if second < 0 && first < Wrapped(MIN_INT64 - second) then None
    else Some(Wrapped(first + second))
  }

  /** addInt checks the upper end only. */
  function AddInt(first: int, second: int): (r: Option<int>)
    requires IsInt64(first) && IsInt64(second)
  {
    if second > 0 && first > Wrapped(MAX_INT64 - second) then None else Some(Wrapped(first + second))
  }

  /** addInt64 gives the exact sum, or refuses when there is none. */
  lemma AddInt64IsExact(first: int, second: int)
    requires IsInt64(first) && IsInt64(second)
    ensures AddInt64(first, second) == if IsInt64(first + second) then Some(first + second) else None
  {
  }

  /** addInt does so exactly when the sum does not fall below the lower end, as it never does for
      counters; otherwise it wraps around. */
  lemma AddIntIsExact(first: int, second: int)
    requires IsInt64(first) && IsInt64(second)
    ensures AddInt(first, second) == (if IsInt64(first + second) then Some(first + second) else None) <==> first + second >= MIN_INT64
  {
  }

  /** The failing input. */
  lemma AddIntWrapsBelow()
    ensures AddInt(MIN_INT64, -1) == Some(MAX_INT64)
  {
  }

  datatype Node = Node(
    id: string, name: string, identity: string, active: bool, retiredAt: Time,
    downtime: int, proxyFailure: int, incidents: int, proxyFailures: int,
    longestDowntime: int, longestProxyFailure: int,
    firstSeen: Time, lastSeen: Time, lastOffline: Time, lastProxyFailure: Time, lastOnline: Time, lastStatus: Time)

  predicate InRange(n: Node) {
    IsInt64(n.downtime) && IsInt64(n.proxyFailure) && IsInt64(n.incidents) && IsInt64(n.proxyFailures)
  }

  datatype Incident = Incident(kind: string, active: bool, scope: string, ids: seq<string>, names: seq<string>, affected: nat, total: nat, rest: string)

  datatype Error = NotInitialized | MissingNode | NotRetired | Mismatch | Overflow

  function Latest(a: Time, b: Time): Time {
    if b > a then b else a
  }

  function EarliestNonZero(a: Time, b: Time): Time {
    if a == 0 || (b != 0 && b < a) then b else a
  }

  function Largest(a: int, b: int): int {
    if b > a then b else a
  }

  // ----- incidents -----

  /** The nodes of an incident after the source became the target. */
  ghost function MovedIds(ids: seq<string>, source: string, target: string): set<string> {
    set i | 0 <= i < |ids| && ids[i] != "" :: if ids[i] == source then target else ids[i]
  }

  /** The name that goes with a node: the last one that is not empty. */
  function NameFor(ids: seq<string>, names: seq<string>, source: string, target: string, targetName: string, id: string): Option<string> {
    if ids == [] then None
    else
      var last := |ids| - 1;
      var before := NameFor(ids[..last], names, source, target, targetName, id);
      var moved := if ids[last] == source then target else ids[last];
      var name := if last < |names| then names[last] else "";
      var shown := Shown(ids[last], name, source, target, targetName);
      if ids[last] == "" || moved != id then before
      else if before.None? || shown != "" then Some(shown)
      else before
  }

  ghost predicate IsMoved(before: Incident, after: Incident, source: string, target: string, targetName: string) {
    if before.scope == "node:" + source then
      after == before.(scope := "node:" + target, ids := [target], names := [targetName], affected := 1, total := 1)
    else if before.ids == [] then after == before
    else
      && after == before.(ids := after.ids, names := after.names, affected := after.affected)
      && Lists(after.ids, MovedIds(before.ids, source, target), Before)
      && after.affected == |after.ids| == |after.names|
      && forall i :: 0 <= i < |after.ids| ==> Some(after.names[i]) == NameFor(before.ids, before.names, source, target, targetName, after.ids[i])
  }

  function Shown(id: string, name: string, source: string, target: string, targetName: string): string {
    if id == source || (id == target && name == "") then targetName else name
  }

  /** These are the moved nodes of the list with their names. */
  ghost predicate NamesOf(byId: map<string, string>, ids: seq<string>, names: seq<string>, source: string, target: string, targetName: string) {
    && byId.Keys == MovedIds(ids, source, target)
    && forall id :: NameIn(byId, id) == NameFor(ids, names, source, target, targetName, id)
  }

  function NameIn(byId: map<string, string>, id: string): Option<string> {
    if id in byId then Some(byId[id]) else None
  }

  method NamesById(ids: seq<string>, names: seq<string>, source: string, target: string, targetName: string) returns (byId: map<string, string>)
    requires source != "" && target != ""
    ensures NamesOf(byId, ids, names, source, target, targetName)
  {
    byId := map[];
    for i := 0 to |ids|
      invariant NamesOf(byId, ids[..i], names, source, target, targetName)
    {
      ghost var before := byId;
      byId := NameOne(byId, ids[i], if i < |names| then names[i] else "", source, target, targetName);
      OneMoreName(before, byId, ids, i, names, source, target, targetName);
    }
    TakeAll(ids);
  }

  lemma TakeAll(ids: seq<string>)
    ensures ids[..|ids|] == ids
  {
  }

  function WithName(byId: map<string, string>, id: string, name: string, source: string, target: string, targetName: string): map<string, string> {
    var moved := if id == source then target else id;
    var shown := Shown(id, name, source, target, targetName);
    if id == "" || (moved in byId && shown == "") then byId else byId[moved := shown]
  }

  lemma OneMoreName(before: map<string, string>, after: map<string, string>, ids: seq<string>, i: nat, names: seq<string>,
                    source: string, target: string, targetName: string)
    requires i < |ids| && source != "" && target != "" && NamesOf(before, ids[..i], names, source, target, targetName)
    requires after == WithName(before, ids[i], if i < |names| then names[i] else "", source, target, targetName)
    ensures NamesOf(after, ids[..i + 1], names, source, target, targetName)
  {
    OneMoreId(ids, i, source, target);
    forall id ensures NameIn(after, id) == NameFor(ids[..i + 1], names, source, target, targetName, id) {
      assert NameIn(before, id) == NameFor(ids[..i], names, source, target, targetName, id);
      NameForOneMore(ids, i, names, source, target, targetName, id);
    }
  }

  /** NameFor, read from the front. */
  lemma NameForOneMore(ids: seq<string>, i: nat, names: seq<string>, source: string, target: string, targetName: string, id: string)
    requires i < |ids|
    ensures var before := NameFor(ids[..i], names, source, target, targetName, id);
            var shown := Shown(ids[i], if i < |names| then names[i] else "", source, target, targetName);
            NameFor(ids[..i + 1], names, source, target, targetName, id) ==
            if ids[i] != "" && (if ids[i] == source then target else ids[i]) == id && (before.None? || shown != "") then Some(shown) else before
  {
    assert ids[..i + 1][..i] == ids[..i];
  }

  method NameOne(byId: map<string, string>, id: string, name: string, source: string, target: string, targetName: string) returns (r: map<string, string>)
    requires source != "" && target != ""
    ensures r == WithName(byId, id, name, source, target, targetName)
  {
    r := byId;
    if id != "" {
      var moved, shown := id, name;
      if moved == source {
        moved, shown := target, targetName;
      }
      if moved == target && shown == "" {
        shown := targetName;
      }
      if moved !in byId || shown != "" {
        r := byId[moved := shown];
      }
    }
  }

  lemma OneMoreId(ids: seq<string>, i: nat, source: string, target: string)
    requires i < |ids|
    ensures MovedIds(ids[..i + 1], source, target) ==
            MovedIds(ids[..i], source, target) + if ids[i] == "" then {} else {if ids[i] == source then target else ids[i]}
  {
    var more := ids[..i + 1];
    assert more[i] == ids[i];
    forall k | 0 <= k < i ensures more[k] == ids[..i][k] {
    }
  }

  /** rewriteIncident. */
  method RewriteIncident(incident: Incident, source: string, target: string, targetName: string) returns (r: Incident)
    requires source != "" && target != ""
    ensures IsMoved(incident, r, source, target, targetName)
  {
    if incident.scope == "node:" + source {
      return incident.(scope := "node:" + target, ids := [target], names := [targetName], affected := 1, total := 1);
    }
    if incident.ids == [] {
      return incident;
    }
    var byId := NamesById(incident.ids, incident.names, source, target, targetName);
    var ids := SortStrings(byId.Keys);
    var names := [];
    for i := 0 to |ids|
      invariant |names| == i && forall k :: 0 <= k < i ==> ids[k] in byId && names[k] == byId[ids[k]]
    {
      assert ids[i] in Elements(ids);
      names := names + [byId[ids[i]]];
    }
    return incident.(ids := ids, names := names, affected := |ids|);
  }

  /** After the rewrite the incident does not name the source, every other node is still there, and
      the target is there exactly when one of the two was. */
  lemma MovedIncidentForgetsSource(before: Incident, after: Incident, source: string, target: string, targetName: string)
    requires IsMoved(before, after, source, target, targetName) && source != target && source != "" && target != ""
    ensures source !in after.ids && after.scope != "node:" + source
    ensures before.scope != "node:" + source ==>
              && (forall id :: id != source && id != target && id != "" ==> (id in after.ids <==> id in before.ids))
              && (target in after.ids <==> target in before.ids || source in before.ids)
  {
    if before.scope == "node:" + source {
      assert ("node:" + target)[5..] == target && ("node:" + source)[5..] == source;
    } else if before.ids != [] {
      assert forall id :: id in after.ids <==> id in Elements(after.ids);
      forall id | id != source && id != "" ensures id in MovedIds(before.ids, source, target) <==> id in before.ids || (id == target && source in before.ids) {
        if id in before.ids {
          var i :| 0 <= i < |before.ids| && before.ids[i] == id;
          assert (if before.ids[i] == source then target else before.ids[i]) == id;
        }
        if id == target && source in before.ids {
          var i :| 0 <= i < |before.ids| && before.ids[i] == source;
          assert target in MovedIds(before.ids, source, target);
        }
      }
    }
  }

  predicate IsActive(incidents: seq<Incident>, kind: string, scope: string) {
    exists i :: 0 <= i < |incidents| && ActiveOn(incidents[i], kind, scope)
  }

  predicate ActiveOn(incident: Incident, kind: string, scope: string) {
    incident.active && incident.kind == kind && incident.scope == scope
  }

  predicate Clash(a: Incident, b: Incident) {
    a.active && b.active && a.kind == b.kind && a.scope == b.scope
  }

  /** At most one incident of a kind is active on a scope. */
  ghost predicate OneActive(incidents: seq<Incident>) {
    forall i, j {:trigger Clash(incidents[i], incidents[j])} :: 0 <= i < j < |incidents| ==> !Clash(incidents[i], incidents[j])
  }

  ghost predicate AreMoved(before: seq<Incident>, after: seq<Incident>, source: string, target: string, targetName: string) {
    |after| == |before| && forall i :: 0 <= i < |after| ==> IsMoved(before[i], after[i], source, target, targetName)
  }

  /** Both nodes have an active incident of one kind. */
  ghost predicate BothActive(incidents: seq<Incident>, source: string, target: string) {
    exists kind :: IsActive(incidents, kind, "node:" + source) && IsActive(incidents, kind, "node:" + target)
  }

  /** The active incidents stay the only ones of their kind and scope unless both nodes have one. */
  lemma RewriteKeepsOneActiveExactly(before: seq<Incident>, after: seq<Incident>, source: string, target: string, targetName: string)
    requires OneActive(before) && AreMoved(before, after, source, target, targetName) && source != target
    ensures OneActive(after) <==> !BothActive(before, source, target)
  {
    assert ("node:" + target)[5..] == target && ("node:" + source)[5..] == source;
    if !OneActive(after) {
      var i, j :| 0 <= i < j < |after| && Clash(after[i], after[j]);
      OnlyScopeMoves(before[i], after[i], source, target, targetName);
      OnlyScopeMoves(before[j], after[j], source, target, targetName);
      assert !Clash(before[i], before[j]);
      assert ActiveOn(before[i], before[i].kind, before[i].scope) && ActiveOn(before[j], before[i].kind, before[j].scope);
      assert IsActive(before, before[i].kind, "node:" + source) && IsActive(before, before[i].kind, "node:" + target);
    }
    if BothActive(before, source, target) {
      var kind :| IsActive(before, kind, "node:" + source) && IsActive(before, kind, "node:" + target);
      var i :| 0 <= i < |before| && ActiveOn(before[i], kind, "node:" + source);
      var j :| 0 <= j < |before| && ActiveOn(before[j], kind, "node:" + target);
      OnlyScopeMoves(before[i], after[i], source, target, targetName);
      OnlyScopeMoves(before[j], after[j], source, target, targetName);
      assert Clash(after[i], after[j]) && Clash(after[j], after[i]);
    }
  }

  lemma OnlyScopeMoves(before: Incident, after: Incident, source: string, target: string, targetName: string)
    requires IsMoved(before, after, source, target, targetName)
    ensures after.kind == before.kind && after.active == before.active
    ensures after.scope == if before.scope == "node:" + source then "node:" + target else before.scope
  {
  }

  // ----- the registry -----

  /** The merged record, or None when a counter overflows. */
  function MergedNode(source: Node, target: Node, targetId: string): Option<Node>
    requires InRange(source) && InRange(target)
  {
    var downtime := AddInt64(target.downtime, source.downtime);
    var proxyFailure := AddInt64(target.proxyFailure, source.proxyFailure);
    var incidents := AddInt(target.incidents, source.incidents);
    var proxyFailures := AddInt(target.proxyFailures, source.proxyFailures);
    if downtime.None? || proxyFailure.None? || incidents.None? || proxyFailures.None? then None
    else Some(target.(
      id := targetId, active := true, retiredAt := 0,
      downtime := downtime.value, proxyFailure := proxyFailure.value, incidents := incidents.value, proxyFailures := proxyFailures.value,
      longestDowntime := Largest(target.longestDowntime, source.longestDowntime),
      longestProxyFailure := Largest(target.longestProxyFailure, source.longestProxyFailure),
      firstSeen := EarliestNonZero(target.firstSeen, source.firstSeen),
      lastSeen := Latest(target.lastSeen, source.lastSeen),
      lastOffline := Latest(target.lastOffline, source.lastOffline),
      lastProxyFailure := Latest(target.lastProxyFailure, source.lastProxyFailure),
      lastOnline := Latest(target.lastOnline, source.lastOnline),
      lastStatus := Latest(target.lastStatus, source.lastStatus)))
  }

  /** A merge conserves the counters, and refuses exactly when a sum does not fit. */
  lemma MergeConservesCounters(source: Node, target: Node, targetId: string)
    requires InRange(source) && InRange(target)
    requires source.incidents >= 0 && target.incidents >= 0 && source.proxyFailures >= 0 && target.proxyFailures >= 0
    ensures var r := MergedNode(source, target, targetId);
            && (r.None? <==> !IsInt64(source.downtime + target.downtime) || !IsInt64(source.proxyFailure + target.proxyFailure)
                             || !IsInt64(source.incidents + target.incidents) || !IsInt64(source.proxyFailures + target.proxyFailures))
            && (r.Some? ==>
                  && r.value.downtime == source.downtime + target.downtime
                  && r.value.proxyFailure == source.proxyFailure + target.proxyFailure
                  && r.value.incidents == source.incidents + target.incidents
                  && r.value.proxyFailures == source.proxyFailures + target.proxyFailures
                  && r.value.longestDowntime >= source.longestDowntime && r.value.longestDowntime >= target.longestDowntime)
  {
    AddInt64IsExact(target.downtime, source.downtime);
    AddInt64IsExact(target.proxyFailure, source.proxyFailure);
    AddIntIsExact(target.incidents, source.incidents);
    AddIntIsExact(target.proxyFailures, source.proxyFailures);
  }

  /** The merged times: nothing was seen earlier or later than by one of the two, and the least is taken
      among those that are known. */
  lemma TimesInFacts(source: Node, target: Node, targetId: string)
    requires InRange(source) && InRange(target) && MergedNode(source, target, targetId).Some?
    ensures var r := MergedNode(source, target, targetId).value;
            && r.id == targetId && r.name == target.name && r.identity == target.identity && r.active && r.retiredAt == 0
            && IsLatest(r.lastSeen, source.lastSeen, target.lastSeen) && IsLatest(r.lastOffline, source.lastOffline, target.lastOffline)
            && IsLatest(r.lastProxyFailure, source.lastProxyFailure, target.lastProxyFailure)
            && IsLatest(r.lastOnline, source.lastOnline, target.lastOnline) && IsLatest(r.lastStatus, source.lastStatus, target.lastStatus)
            && IsLatest(r.longestDowntime, source.longestDowntime, target.longestDowntime)
            && IsLatest(r.longestProxyFailure, source.longestProxyFailure, target.longestProxyFailure)
            && r.firstSeen in {source.firstSeen, target.firstSeen}
            && (source.firstSeen != 0 ==> r.firstSeen != 0 && r.firstSeen <= source.firstSeen)
            && (target.firstSeen != 0 ==> r.firstSeen != 0 && r.firstSeen <= target.firstSeen)
  {
  }

  predicate IsLatest(r: int, a: int, b: int) {
    r in {a, b} && a <= r && b <= r
  }

  /** A merge is refused unless a retired node goes into an active one of the same identity and the sums
      fit. */
  lemma MergesExactly(nodes: map<string, Node>, source: string, target: string)
    requires forall id :: id in nodes ==> InRange(nodes[id]) && nodes[id].incidents >= 0 && nodes[id].proxyFailures >= 0
    ensures MergeError(nodes, source, target).None? <==>
              && source in nodes && target in nodes && !nodes[source].active && nodes[target].active
              && nodes[source].identity == nodes[target].identity
              && IsInt64(nodes[source].downtime + nodes[target].downtime) && IsInt64(nodes[source].proxyFailure + nodes[target].proxyFailure)
              && IsInt64(nodes[source].incidents + nodes[target].incidents) && IsInt64(nodes[source].proxyFailures + nodes[target].proxyFailures)
  {
    if source in nodes && target in nodes {
      MergeConservesCounters(nodes[source], nodes[target], target);
    }
  }

  class Registry {
    var nodes: map<string, Node>
    var lineages: map<string, seq<string>>
    var incidents: seq<Incident>
    var samples: map<string, seq<Sample>>
    var updatedAt: Time

    ghost predicate Unchanged(nodes: map<string, Node>, lineages: map<string, seq<string>>, incidents: seq<Incident>, samples: map<string, seq<Sample>>, updatedAt: Time)
      reads this
    {
      this.nodes == nodes && this.lineages == lineages && this.incidents == incidents && this.samples == samples && this.updatedAt == updatedAt
    }

    /** mergeNodeState: the checks and the sums come first, so a refused merge changes nothing. */
    method Merge(source: string, target: string, now: Time) returns (error: Option<Error>)
      requires forall id :: id in nodes ==> InRange(nodes[id]) && id != ""
      modifies this
      ensures error.Some? ==> Unchanged(old(nodes), old(lineages), old(incidents), old(samples), old(updatedAt))
      ensures error == MergeError(old(nodes), source, target)
      ensures error.None? ==>
                && source != target && source in old(nodes) && target in old(nodes)
                // the target's record takes the source's, and no other record changes
                && MergedNode(old(nodes)[source], old(nodes)[target], target).Some?
                && nodes == (old(nodes) - {source})[target := MergedNode(old(nodes)[source], old(nodes)[target], target).value]
                // the lineages are united under the target
                && lineages.Keys == (old(lineages).Keys - {source}) + {target}
                && (forall id :: id in lineages && id != target ==> lineages[id] == old(lineages)[id])
                && Lists(lineages[target], Elements(Lineage(old(lineages), target)) + Elements(Lineage(old(lineages), source)) + {source} - {"", target}, Before)
                // every incident is rewritten
                && AreMoved(old(incidents), incidents, source, target, old(nodes)[target].name)
                // the samples are united under the target
                && source !in samples
                && (forall id :: id != target && id != source ==> SamplesOf(samples, id) == SamplesOf(old(samples), id))
                && IsSamples(SamplesOf(samples, target), SamplesOf(old(samples), target) + SamplesOf(old(samples), source))
                && updatedAt == now
    {
      if source !in nodes || target !in nodes {
        return Some(MissingNode);
      }
      var from, into := nodes[source], nodes[target];
      if from.active || !into.active {
        return Some(NotRetired);
      }
      if from.identity != into.identity {
        return Some(Mismatch);
      }
      var merged := MergedNode(from, into, target);
      if merged.None? {
        return Some(Overflow);
      }
      nodes := (nodes - {source})[target := merged.value];
      UniteLineages(source, target);
      RewriteIncidents(source, target, into.name);
      UniteSamples(source, target);
      updatedAt := now;
      return None;
    }

    method UniteLineages(source: string, target: string)
      requires source != target
      modifies this`lineages
      ensures lineages.Keys == (old(lineages).Keys - {source}) + {target}
      ensures forall id :: id in lineages && id != target ==> lineages[id] == old(lineages)[id]
      ensures Lists(lineages[target], Elements(Lineage(old(lineages), target)) + Elements(Lineage(old(lineages), source)) + {source} - {"", target}, Before)
    {
      var all := Lineage(lineages, target) + [source] + Lineage(lineages, source);
      assert Elements(all) == Elements(Lineage(lineages, target)) + Elements(Lineage(lineages, source)) + {source};
      var united := UniqueSorted(all, target);
      lineages := lineages[target := united] - {source};
    }

    method RewriteIncidents(source: string, target: string, targetName: string)
      requires source != "" && target != ""
      modifies this`incidents
      ensures AreMoved(old(incidents), incidents, source, target, targetName)
    {
      for i := 0 to |incidents|
        invariant |incidents| == |old(incidents)|
        invariant forall k :: 0 <= k < i ==> IsMoved(old(incidents)[k], incidents[k], source, target, targetName)
        invariant forall k :: i <= k < |incidents| ==> incidents[k] == old(incidents)[k]
      {
        var r := RewriteIncident(incidents[i], source, target, targetName);
        incidents := incidents[i := r];
      }
    }

    method UniteSamples(source: string, target: string)
      requires source != target
      modifies this`samples
      ensures source !in samples
      ensures forall id :: id != target && id != source ==> SamplesOf(samples, id) == SamplesOf(old(samples), id)
      ensures IsSamples(SamplesOf(samples, target), SamplesOf(old(samples), target) + SamplesOf(old(samples), source))
    {
      var merged := MergeAvailability(SamplesOf(samples, target), SamplesOf(samples, source));
      samples := samples - {source};
      if merged == [] {
        samples := samples - {target};
      } else {
        samples := samples[target := merged];
      }
    }
  }

  /** The failing input: the retired node left an active incident behind, the active one is offline as
      well, and the merge puts both incidents on one scope. */
  method MergeLeavesTwoActive(retired: Node, active: Node, now: Time) returns (r: Registry)
    requires InRange(retired) && InRange(active) && !retired.active && active.active && retired.identity == active.identity
    requires retired.id != "" && active.id != "" && retired.id != active.id && MergedNode(retired, active, active.id).Some?
    ensures !OneActive(r.incidents)
  {
    r := new Registry;
    r.nodes, r.lineages, r.samples, r.updatedAt := map[retired.id := retired, active.id := active], map[], map[], now;
    r.incidents := [OfNode(retired), OfNode(active)];
    var before := r.incidents;
    var error := r.Merge(retired.id, active.id, now);
    assert error.None?;
    BothAreOffline(retired, active);
    RewriteKeepsOneActiveExactly(before, r.incidents, retired.id, active.id, active.name);
  }

  lemma BothAreOffline(retired: Node, active: Node)
    requires retired.id != active.id
    ensures var incidents := [OfNode(retired), OfNode(active)]; OneActive(incidents) && BothActive(incidents, retired.id, active.id)
  {
    var incidents := [OfNode(retired), OfNode(active)];
    assert ("node:" + retired.id)[5..] == retired.id && ("node:" + active.id)[5..] == active.id;
    assert ActiveOn(incidents[0], "node", "node:" + retired.id) && ActiveOn(incidents[1], "node", "node:" + active.id);
    assert IsActive(incidents, "node", "node:" + retired.id) && IsActive(incidents, "node", "node:" + active.id);
  }

  function OfNode(node: Node): Incident {
    Incident("node", true, "node:" + node.id, [node.id], [node.name], 1, 1, "")
  }

  function Lineage(lineages: map<string, seq<string>>, id: string): seq<string> {
    if id in lineages then lineages[id] else []
  }

  function SamplesOf(samples: map<string, seq<Sample>>, id: string): seq<Sample> {
    if id in samples then samples[id] else []
  }

  function MergeError(nodes: map<string, Node>, source: string, target: string): Option<Error>
    requires forall id :: id in nodes ==> InRange(nodes[id])
  {
    if source !in nodes || target !in nodes then Some(MissingNode)
    else if nodes[source].active || !nodes[target].active then Some(NotRetired)
    else if nodes[source].identity != nodes[target].identity then Some(Mismatch)
    else if MergedNode(nodes[source], nodes[target], target).None? then Some(Overflow)
    else None
  }

  // ----- speed results -----

  /** mergeSpeedState: the target keeps one history of both nodes' results, and its latest. */
  method MergeSpeed(results: map<string, Result>, history: map<string, seq<Result>>, source: string, target: string, tag: Tag, encode: Encoding)
    returns (results': map<string, Result>, history': map<string, seq<Result>>)
    requires source != target && Faithful(encode)
    ensures source !in results' && source !in history'
    ensures forall id :: id != source && id != target ==>
              (id in results' <==> id in results) && (id in history' <==> id in history)
              && (id in results ==> results'[id] == results[id]) && (id in history ==> history'[id] == history[id])
    ensures target in results' <==> target in history'
    ensures target in history' ==> history'[target] != [] && results'[target] == history'[target][0]
    ensures IsHistory(if target in history' then history'[target] else [], AllResults(results, history, source) + AllResults(results, history, target), tag, encode)
  {
    var entries := (if source in history then history[source] else []) + (if target in history then history[target] else []);
    if source in results {
      entries := entries + [results[source]];
    }
    if target in results {
      entries := entries + [results[target]];
    }
    var merged := MergeHistory.MergeHistory(entries, [], tag, encode);
    SameResults(results, history, source, target, entries, tag, encode);
    history' := history - {source};
    results' := results - {source};
    if |merged| == 0 {
      history' := history' - {target};
      results' := results' - {target};
    } else {
      history' := history'[target := merged];
      results' := results'[target := merged[0]];
    }
  }

  function AllResults(results: map<string, Result>, history: map<string, seq<Result>>, id: string): seq<Result> {
    (if id in history then history[id] else []) + (if id in results then [results[id]] else [])
  }

  lemma SameResults(results: map<string, Result>, history: map<string, seq<Result>>, source: string, target: string, entries: seq<Result>, tag: Tag, encode: Encoding)
    requires entries == (if source in history then history[source] else []) + (if target in history then history[target] else [])
                        + (if source in results then [results[source]] else []) + (if target in results then [results[target]] else [])
    ensures Relabelled(entries + [], tag, encode) ==
            Relabelled(AllResults(results, history, source) + AllResults(results, history, target), tag, encode)
  {
    var hs := if source in history then history[source] else [];
    var ht := if target in history then history[target] else [];
    var rs := if source in results then [results[source]] else [];
    var rt := if target in results then [results[target]] else [];
    assert entries + [] == entries;
    RelabelledParts(hs + ht + rs, rt, tag, encode);
    RelabelledParts(hs + ht, rs, tag, encode);
    RelabelledParts(hs, ht, tag, encode);
    RelabelledParts(hs + rs, ht + rt, tag, encode);
    RelabelledParts(hs, rs, tag, encode);
    RelabelledParts(ht, rt, tag, encode);
  }
}
