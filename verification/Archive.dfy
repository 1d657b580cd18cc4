/**
  The node archive over whole runs: which nodes are listed, whether their records are active, and
  whether their incidents are. A node leaves the list either through a sync or through a check.
*/
module Archive {
  import opened Wrappers
  import opened Incidents
  import opened IncidentJournal

  /** One node: whether the checker has it, the Active flag of its record, and whether it has an
      active incident. */
  datatype Node = Node(listed: bool, record: Option<bool>, open: bool)

  datatype Event =
    | Update(list: seq<Proxy>)
    | Check(paused: set<string>, statuses: map<string, Failure>, now: Time)
    | Sync(now: Time)
    | Pause(saved: bool, now: Time)

  /** The record of a node that is not listed any more. */
  function Retired(record: Option<bool>): Option<bool> {
    if record == Some(true) then Some(false) else record
  }

  function Step(v: Node, e: Event, id: string): Node {
    match e
    case Update(list) => v.(listed := Watched(list, id))
    case Check(paused, statuses, _) =>
      if !v.listed then v.(record := Retired(v.record))
      else Node(true, Some(true), id !in paused && if id in statuses then statuses[id].offline else v.open)
    case Sync(_) =>
      if v.listed then v.(record := Some(true))
      else Node(false, Retired(v.record), v.open && v.record != Some(true))
    case Pause(saved, _) => v.(open := v.open && !saved)
  }

  function After(v: Node, run: seq<Event>, id: string): Node
    decreases |run|
  {
    if run == [] then v else After(Step(v, run[0], id), run[1..], id)
  }

  /** A global mass incident and one of a subscription are never active together. */
  ghost predicate NeverBoth(incidents: seq<Incident>) {
    SomeActive(incidents, MassIncident, "global") ==> forall s {:trigger ScopeOf(s)} :: !SomeActive(incidents, MassIncident, ScopeOf(s))
  }

  function Journalled(list: seq<Proxy>, paused: set<string>): (r: seq<Proxy>)
    ensures forall p :: p in r <==> p in list && p.id !in paused
  {
    if list == [] then []
    else
      var before, last := Journalled(list[..|list| - 1], paused), list[|list| - 1];
      assert list == list[..|list| - 1] + [last];
      if last.id in paused then before else before + [last]
  }

  lemma WatchedIsMember(list: seq<Proxy>, id: string)
    ensures Watched(list, id) <==> exists p :: p in list && p.id == id
  {
    if p :| p in list && p.id == id {
      var i :| 0 <= i < |list| && list[i] == p;
      assert list[i].id == id;
    }
  }

  class Store {
    const journal: Journal
    var active: map<string, bool>
    var list: seq<Proxy>

    ghost predicate Valid()
      reads this, journal
    {
      journal.Valid() && NeverBoth(journal.incidents) && forall p :: p in list ==> p.id != ""
    }

    ghost function Of(id: string): Node
      reads this, journal
    {
      Node(Watched(list, id), if id in active then Some(active[id]) else None, SomeActive(journal.incidents, NodeIncident, NodeScope(id)))
    }

    constructor ()
      ensures Valid() && fresh(journal) && active == map[] && list == [] && journal.incidents == []
    {
      journal := new Journal();
      active, list := map[], [];
    }

    /** UpdateProxies: the checker has a new list. Every node has an identifier. */
    method UpdateProxies(proxies: seq<Proxy>)
      requires Valid() && forall p :: p in proxies ==> p.id != ""
      modifies this`list
      ensures Valid() && list == proxies
    {
      list := proxies;
    }

    /** The first loop of SyncProxies and of recordAvailability, as far as it sets the Active flags. */
    method Activate()
      modifies this`active
      ensures forall id :: id in active <==> id in old(active) || Watched(list, id)
      ensures forall id :: id in active ==> active[id] == if Watched(list, id) then true else old(active)[id]
    {
      for i := 0 to |list|
        invariant forall id :: id in active <==> id in old(active) || Watched(list[..i], id)
        invariant forall id :: id in active ==> active[id] == if Watched(list[..i], id) then true else old(active)[id]
      {
        forall id ensures Watched(list[..i + 1], id) <==> Watched(list[..i], id) || id == list[i].id {
          WatchedOneMore(list, i, id);
        }
        active := active[list[i].id := true];
      }
      assert list[..|list|] == list;
    }

    method IsListed(id: string) returns (b: bool)
      ensures b == Watched(list, id)
    {
      for i := 0 to |list|
        invariant forall k :: 0 <= k < i ==> list[k].id != id
      {
        if list[i].id == id {
          return true;
        }
      }
      return false;
    }

    /** SyncProxies: records of nodes that are gone become inactive, and their incidents end. */
    method Sync(now: Time)
      requires Valid()
      modifies this`active, journal
      ensures Valid() && forall id :: Of(id) == Step(old(Of(id)), Event.Sync(now), id)
    {
      Activate();
      ghost var before, open := active, journal.incidents;
      var left := active.Keys;
      while left != {}
        invariant Valid() && left <= active.Keys == before.Keys
        invariant forall id :: id in active ==> active[id] == if id in left || Watched(list, id) then before[id] else false
        invariant forall id :: SomeActive(journal.incidents, NodeIncident, NodeScope(id)) <==>
                    SomeActive(open, NodeIncident, NodeScope(id)) && !(id in before && id !in left && before[id] && !Watched(list, id))
        decreases left
      {
        var id :| id in left;
        left := left - {id};
        var listed := IsListed(id);
        if active[id] && !listed {
          active := active[id := false];
          Resolve(id, now);
        }
      }
    }

    method Resolve(id: string, now: Time)
      requires Valid()
      modifies journal
      ensures Valid() && !SomeActive(journal.incidents, NodeIncident, NodeScope(id))
      ensures forall other :: other != id ==>
                (SomeActive(journal.incidents, NodeIncident, NodeScope(other)) <==> SomeActive(old(journal.incidents), NodeIncident, NodeScope(other)))
    {
      ghost var before := journal.incidents;
      journal.ResolveScope(NodeIncident, NodeScope(id), now);
      OthersKept(before, journal.incidents, id);
    }

    /** recordAvailability: the journal follows the listed nodes, and records of nodes that are gone
        become inactive while their incidents stay. */
    method RecordAvailability(paused: set<string>, statuses: map<string, Failure>, now: Time)
      requires Valid()
      modifies this`active, journal
      ensures Valid() && forall id :: Of(id) == Step(old(Of(id)), Check(paused, statuses, now), id)
    {
      Activate();
      ghost var before := journal.incidents;
      CheckJournal(paused, statuses, now);
      Deactivate();
    }

    method CheckJournal(paused: set<string>, statuses: map<string, Failure>, now: Time)
      requires Valid()
      modifies journal
      ensures Valid()
      ensures forall id :: SomeActive(journal.incidents, NodeIncident, NodeScope(id)) <==>
                if !Watched(list, id) then SomeActive(old(journal.incidents), NodeIncident, NodeScope(id))
                else id !in paused && if id in statuses then statuses[id].offline else SomeActive(old(journal.incidents), NodeIncident, NodeScope(id))
    {
      ghost var before := journal.incidents;
      var watched, resting := Divide(paused);
      var candidates := journal.Check(resting, watched, statuses, now);
      forall s ensures !(Covered(candidates, "global") && Covered(candidates, ScopeOf(s))) {
        NeverGlobalAndSubscription(candidates, watched, statuses, s);
      }
      forall id ensures Watched(watched, id) <==> Watched(list, id) && id !in paused {
        WatchedIsMember(watched, id);
        WatchedIsMember(list, id);
      }
    }

    /** The nodes the journal is about, and the listed ones it is not. */
    method Divide(paused: set<string>) returns (watched: seq<Proxy>, resting: set<string>)
      ensures watched == Journalled(list, paused) && forall id :: id in resting <==> id in paused && Watched(list, id)
    {
      watched, resting := [], {};
      for i := 0 to |list|
        invariant watched == Journalled(list[..i], paused)
        invariant forall id :: id in resting <==> id in paused && Watched(list[..i], id)
      {
        assert list[..i + 1][..i] == list[..i];
        forall id ensures Watched(list[..i + 1], id) <==> Watched(list[..i], id) || id == list[i].id {
          WatchedOneMore(list, i, id);
        }
        if list[i].id in paused {
          resting := resting + {list[i].id};
        } else {
          watched := watched + [list[i]];
        }
      }
      assert list[..|list|] == list;
    }

    /** The last loop of recordAvailability. */
    method Deactivate()
      modifies this`active
      ensures active.Keys == old(active).Keys && forall id :: id in active ==> active[id] == (old(active)[id] && Watched(list, id))
    {
      var left := active.Keys;
      while left != {}
        invariant left <= active.Keys == old(active).Keys
        invariant forall id :: id in active ==> active[id] == (old(active)[id] && (id in left || Watched(list, id)))
        decreases left
      {
        var id :| id in left;
        left := left - {id};
        var listed := IsListed(id);
        if active[id] && !listed {
          active := active[id := false];
        }
      }
    }

    /** PauseProjectMonitoring. */
    method PauseAll(saved: bool, now: Time)
      requires Valid()
      modifies journal
      ensures Valid() && forall id :: Of(id) == Step(old(Of(id)), Event.Pause(saved, now), id)
    {
      ghost var before := journal.incidents;
      journal.Pause(saved, now);
      forall k, s ensures SomeActive(journal.incidents, k, s) <==> !saved && SomeActive(before, k, s) {
        PausedActive(before, journal.incidents, saved, now, k, s);
      }
    }

    method Do(e: Event)
      requires Valid() && (e.Update? ==> forall p :: p in e.list ==> p.id != "")
      modifies this, journal
      ensures Valid() && forall id :: Of(id) == Step(old(Of(id)), e, id)
    {
      match e
      case Update(list) => UpdateProxies(list);
      case Check(paused, statuses, now) => RecordAvailability(paused, statuses, now);
      case Sync(now) => Sync(now);
      case Pause(saved, now) => PauseAll(saved, now);
    }

    /** Over every run each node goes its own way. */
    method Run(run: seq<Event>)
      requires Valid() && forall e :: e in run && e.Update? ==> forall p :: p in e.list ==> p.id != ""
      modifies this, journal
      ensures Valid() && forall id :: Of(id) == After(old(Of(id)), run, id)
      decreases |run|
    {
      if run != [] {
        Do(run[0]);
        Run(run[1..]);
      }
    }
  }

  lemma PausedActive(before: seq<Incident>, after: seq<Incident>, saved: bool, now: Time, k: Kind, s: string)
    requires |after| == |before|
    requires forall i :: 0 <= i < |after| ==> after[i] == if saved && before[i].active then Resolved(before[i], now) else before[i]
    ensures SomeActive(after, k, s) <==> !saved && SomeActive(before, k, s)
  {
    assert !saved ==> after == before;
    if SomeActive(after, k, s) {
      var i :| 0 <= i < |after| && after[i].active && after[i].kind == k && after[i].scope == s;
      assert before[i].active && !saved;
    }
  }

  // ----- a node that is gone -----

  predicate Absent(run: seq<Event>, id: string) {
    forall i :: 0 <= i < |run| && run[i].Update? ==> !Watched(run[i].list, id)
  }

  predicate Paused(run: seq<Event>) {
    exists i :: 0 <= i < |run| && run[i].Pause? && run[i].saved
  }

  /** The first to see that the node is gone is a sync. */
  predicate SyncComesFirst(run: seq<Event>)
    decreases |run|
  {
    run != [] && (run[0].Sync? || (!run[0].Check? && SyncComesFirst(run[1..])))
  }

  /** The incident of a node that is gone stays active, over every later check and sync and short of a
      project pause, exactly when it was active and not a sync but a check saw first that the node is
      gone: then its record is inactive already when a sync comes to it. */
  lemma {:induction false} AbsentIncidentExactly(v: Node, run: seq<Event>, id: string)
    requires !v.listed && Absent(run, id)
    ensures After(v, run, id).open <==> v.open && !Paused(run) && !(v.record == Some(true) && SyncComesFirst(run))
    decreases |run|
  {
    if run == [] {
    } else {
      assert Absent(run[1..], id) by {
        forall i | 0 <= i < |run[1..]| && run[1..][i].Update? ensures !Watched(run[1..][i].list, id) {
          assert run[1..][i] == run[i + 1];
        }
      }
      PausedRest(run);
      AbsentIncidentExactly(Step(v, run[0], id), run[1..], id);
    }
  }

  lemma PausedRest(run: seq<Event>)
    requires run != []
    ensures Paused(run) <==> (run[0].Pause? && run[0].saved) || Paused(run[1..])
  {
    if Paused(run[1..]) {
      var i :| 0 <= i < |run[1..]| && run[1..][i].Pause? && run[1..][i].saved;
      assert run[i + 1] == run[1..][i];
    }
    if i :| 0 <= i < |run| && run[i].Pause? && run[i].saved {
      if i > 0 {
        assert run[1..][i - 1] == run[i];
      }
    }
  }

  /** From the last check that listed the node on: its incident is still active exactly when that check
      left it active, and a check came before the first sync. */
  lemma LeavesItsIncidentExactly(v: Node, paused: set<string>, statuses: map<string, Failure>, now: Time, list: seq<Proxy>, run: seq<Event>, id: string)
    requires v.listed && !Watched(list, id) && Absent(run, id) && !Paused(run)
    ensures After(v, [Check(paused, statuses, now), Update(list)] + run, id).open <==>
              && id !in paused && (if id in statuses then statuses[id].offline else v.open)
              && !SyncComesFirst(run)
  {
    var checked := Check(paused, statuses, now);
    var all := [checked, Update(list)] + run;
    assert all[1..] == [Update(list)] + run;
    assert all[1..][1..] == run;
    AbsentIncidentExactly(Step(Step(v, checked, id), Update(list), id), run, id);
  }

  /** The failing input: an offline node is removed from the list, a check runs before the sync, and
      the incident is never resolved. */
  method NodeLeavesThroughCheck(id: string, later: seq<Event>) returns (s: Store)
    requires id != "" && Absent(later, id) && !Paused(later)
    requires forall e :: e in later && e.Update? ==> forall p :: p in e.list ==> p.id != ""
    ensures fresh(s) && s.Valid() && SomeActive(s.journal.incidents, NodeIncident, NodeScope(id))
  {
    s := new Store();
    var p := Proxy(id, "", "server");
    var offline := map[id := Failure(false, true, "", 1, false)];
    s.Do(Update([p]));
    assert [p][0].id == id;
    s.Do(Sync(1));
    s.Do(Check({}, offline, 2));
    s.Do(Update([]));
    s.Do(Check({}, map[], 3));
    s.Do(Sync(4));
    AbsentIncidentExactly(s.Of(id), later, id);
    s.Run(later);
  }
}
