/**
  How the members of one announce location become its state: they are folded by server, the servers
  are folded into the location, and both folds use the same rules. Members and servers are visited
  in any order.
*/
module LocationFold {
  import opened Wrappers
  import opened Hysteresis

  type Member = string

  /** What is known about one member of a location. Times are integers, 0 for the zero time. */
  datatype Facts = Facts(
    server: string,
    visible: bool,
    endpointIncident: bool,
    status: Option<Status>,
    observations: nat,
    paused: bool)

  datatype Status = Status(online: bool, failureSince: Time)

  datatype Policy = Policy(outage: Time, minimumFailures: nat)

  /** A member without an address stands alone. */
  function ServerKey(id: Member, facts: Facts): string {
    if facts.server == "" then "stable:" + id else facts.server
  }

  predicate ConfirmedDown(facts: Facts, policy: Policy, now: Time) {
    && facts.status.Some? && !facts.status.value.online
    && facts.status.value.failureSince != 0
    && now - facts.status.value.failureSince >= policy.outage
    && facts.observations >= policy.minimumFailures
  }

  /** What one visible member says. */
  function MemberState(facts: Facts, policy: Policy, now: Time): State {
    if facts.endpointIncident then Ambiguous
    else if facts.status.None? then Pending
    else if facts.status.value.online then Healthy
    else if !ConfirmedDown(facts, policy, now) then Pending
    else if facts.paused then Maintenance else Down
  }

  datatype Aggregate = Aggregate(hasHealthy: bool, hasPending: bool, hasAmbiguous: bool, members: nat, down: nat, maintenanceDown: nat)

  const NOTHING := Aggregate(false, false, false, 0, 0, 0)

  function StateOf(item: Aggregate): State {
    if item.hasHealthy && item.down > 0 then Partial
    else if item.hasHealthy then Healthy
    else if item.hasAmbiguous then Ambiguous
    else if item.hasPending || item.down < item.members then Pending
    else if item.maintenanceDown == item.members then Maintenance
    else Down
  }

  function Add(item: Aggregate, s: State): Aggregate {
    var item := item.(members := item.members + 1);
    match s
    case Ambiguous => item.(hasAmbiguous := true)
    case Pending => item.(hasPending := true)
    case Down => item.(down := item.down + 1)
    case Maintenance => item.(down := item.down + 1, maintenanceDown := item.maintenanceDown + 1)
    case _ => item.(hasHealthy := true)
  }

  function Those(things: map<string, State>, s: State): set<string> {
    set t | t in things && things[t] == s
  }

  /** How many of these things are in state `s`. */
  function Number(things: map<string, State>, s: State): nat {
    |Those(things, s)|
  }

  /** The aggregate counts exactly these things. */
  predicate Counts(item: Aggregate, things: map<string, State>) {
    && item.members == Number(things, Healthy) + Number(things, Partial) + Number(things, Ambiguous)
                       + Number(things, Pending) + Number(things, Down) + Number(things, Maintenance)
    && item.hasHealthy == (Number(things, Healthy) + Number(things, Partial) > 0)
    && item.hasPending == (Number(things, Pending) > 0)
    && item.hasAmbiguous == (Number(things, Ambiguous) > 0)
    && item.down == Number(things, Down) + Number(things, Maintenance)
    && item.maintenanceDown == Number(things, Maintenance)
  }

  lemma NumberWithOneMore(things: map<string, State>, t: string, s: State, u: State)
    requires t !in things
    ensures Number(things[t := s], u) == Number(things, u) + if u == s then 1 else 0
  {
    assert Those(things[t := s], u) == if u == s then Those(things, u) + {t} else Those(things, u);
    assert t !in Those(things, u);
  }

  lemma AddCounts(item: Aggregate, things: map<string, State>, t: string, s: State)
    requires Counts(item, things) && t !in things
    ensures Counts(Add(item, s), things[t := s])
  {
    NumberWithOneMore(things, t, s, Healthy);
    NumberWithOneMore(things, t, s, Partial);
    NumberWithOneMore(things, t, s, Ambiguous);
    NumberWithOneMore(things, t, s, Pending);
    NumberWithOneMore(things, t, s, Down);
    NumberWithOneMore(things, t, s, Maintenance);
  }

  /** What an aggregate reports, by the numbers it stands for. */
  function Reported(healthy: nat, partial: nat, ambiguous: nat, pending: nat, down: nat): State {
    if healthy + partial > 0 then Healthy
    else if ambiguous > 0 then Ambiguous
    else if pending > 0 then Pending
    else if down > 0 then Down
    else Maintenance
  }

  lemma StateOfCounted(item: Aggregate, things: map<string, State>)
    requires Counts(item, things)
    ensures StateOf(item) ==
            if Number(things, Healthy) + Number(things, Partial) > 0 && Number(things, Down) + Number(things, Maintenance) > 0 then Partial
            else Reported(Number(things, Healthy), Number(things, Partial), Number(things, Ambiguous), Number(things, Pending), Number(things, Down))
  {
  }

  // ----- the flat condition -----

  function Visible(members: map<Member, Facts>): (ids: set<Member>) {
    set id | id in members && members[id].visible
  }

  ghost predicate Somewhere(members: map<Member, Facts>, policy: Policy, now: Time, s: State) {
    exists id :: id in Visible(members) && MemberState(members[id], policy, now) == s
  }

  ghost predicate ServerFailed(members: map<Member, Facts>, policy: Policy, now: Time, key: string) {
    && (exists id :: id in Visible(members) && ServerKey(id, members[id]) == key)
    && (forall id :: id in Visible(members) && ServerKey(id, members[id]) == key ==>
          MemberState(members[id], policy, now).Down? || MemberState(members[id], policy, now).Maintenance?)
  }

  ghost predicate SomeServerFailed(members: map<Member, Facts>, policy: Policy, now: Time) {
    exists id :: id in Visible(members) && ServerFailed(members, policy, now, ServerKey(id, members[id]))
  }

  /** The state of a location read off its visible members, with no fold: partial means that some
      member answers while some server has all its members confirmed down. */
  ghost function Flat(members: map<Member, Facts>, policy: Policy, now: Time): State {
    if Somewhere(members, policy, now, Healthy) then
      (if SomeServerFailed(members, policy, now) then Partial else Healthy)
    else if Somewhere(members, policy, now, Ambiguous) then Ambiguous
    else if Somewhere(members, policy, now, Pending) then Pending
    else if Somewhere(members, policy, now, Down) then Down
    else Maintenance
  }

  /** Counted as an outage: failing for the outage time and often enough, and not blamed on the check
      endpoint. */
  predicate Out(facts: Facts, policy: Policy, now: Time) {
    && !facts.endpointIncident && facts.status.Some? && !facts.status.value.online
    && facts.status.value.failureSince != 0 && facts.status.value.failureSince + policy.outage <= now
    && policy.minimumFailures <= facts.observations
  }

  /** Two members share a server when they are one, or have one address. An address that is spelled like
      the stand-in for a member without one counts as that member's. */
  predicate Share(members: map<Member, Facts>, a: Member, b: Member)
    requires a in members && b in members
  {
    || a == b
    || (members[a].server != "" && members[a].server == members[b].server)
    || (members[a].server == "" && members[b].server == "stable:" + a)
    || (members[b].server == "" && members[a].server == "stable:" + b)
  }

  lemma ShareExactly(members: map<Member, Facts>, a: Member, b: Member)
    requires a in members && b in members
    ensures ServerKey(a, members[a]) == ServerKey(b, members[b]) <==> Share(members, a, b)
  {
    if members[a].server == "" && members[b].server == "" && a != b {
      assert ("stable:" + a)[7..] == a && ("stable:" + b)[7..] == b;
    }
  }

  predicate Answers(facts: Facts) {
    !facts.endpointIncident && facts.status.Some? && facts.status.value.online
  }

  ghost predicate AllOut(members: map<Member, Facts>, policy: Policy, now: Time) {
    forall id :: id in Visible(members) ==> Out(members[id], policy, now)
  }

  lemma SaidSomewhere(members: map<Member, Facts>, policy: Policy, now: Time, id: Member)
    requires id in Visible(members)
    ensures Somewhere(members, policy, now, MemberState(members[id], policy, now))
  {
  }

  /** A location is reported out exactly when every visible member is confirmed down, and as
      maintenance exactly when all of them are paused as well. */
  lemma OutageInFacts(members: map<Member, Facts>, policy: Policy, now: Time)
    requires Visible(members) != {}
    ensures Flat(members, policy, now).Maintenance? || Flat(members, policy, now).Down? <==> AllOut(members, policy, now)
    ensures Flat(members, policy, now).Maintenance? <==>
              AllOut(members, policy, now) && forall id :: id in Visible(members) ==> members[id].paused
  {
    forall id | id in Visible(members)
      ensures Somewhere(members, policy, now, MemberState(members[id], policy, now))
    {
      SaidSomewhere(members, policy, now, id);
    }
    var some :| some in Visible(members);
  }

  /** Every visible member that shares this one's server is out. */
  ghost predicate AddressOut(members: map<Member, Facts>, policy: Policy, now: Time, id: Member)
    requires id in members
  {
    forall other :: other in Visible(members) && Share(members, id, other) ==> Out(members[other], policy, now)
  }

  ghost predicate SomeAnswers(members: map<Member, Facts>) {
    exists id :: id in Visible(members) && Answers(members[id])
  }

  ghost predicate SomeServerOut(members: map<Member, Facts>, policy: Policy, now: Time) {
    exists id :: id in Visible(members) && AddressOut(members, policy, now, id)
  }

  /** A location is partial exactly when some member answers while every member of some server is
      confirmed down; members without an address are servers of their own. */
  lemma PartialInFacts(members: map<Member, Facts>, policy: Policy, now: Time)
    ensures Flat(members, policy, now).Partial? <==> SomeAnswers(members) && SomeServerOut(members, policy, now)
    ensures Flat(members, policy, now).Healthy? <==> SomeAnswers(members) && !SomeServerOut(members, policy, now)
  {
    AnsweredInFacts(members, policy, now);
    FailedInFacts(members, policy, now);
  }

  lemma AnsweredInFacts(members: map<Member, Facts>, policy: Policy, now: Time)
    ensures Somewhere(members, policy, now, Healthy) <==> SomeAnswers(members)
  {
    forall id | id in Visible(members)
      ensures MemberState(members[id], policy, now).Healthy? <==> Answers(members[id])
    {
    }
    if id :| id in Visible(members) && Answers(members[id]) {
      SaidSomewhere(members, policy, now, id);
    }
  }

  lemma FailedInFacts(members: map<Member, Facts>, policy: Policy, now: Time)
    ensures SomeServerFailed(members, policy, now) <==> SomeServerOut(members, policy, now)
  {
    forall id | id in Visible(members)
      ensures ServerFailed(members, policy, now, ServerKey(id, members[id])) <==> AddressOut(members, policy, now, id)
    {
      ServerFailedInFacts(members, policy, now, id);
    }
  }

  lemma ServerFailedInFacts(members: map<Member, Facts>, policy: Policy, now: Time, id: Member)
    requires id in Visible(members)
    ensures ServerFailed(members, policy, now, ServerKey(id, members[id])) <==> AddressOut(members, policy, now, id)
  {
    forall other | other in Visible(members)
      ensures ServerKey(other, members[other]) == ServerKey(id, members[id]) <==> Share(members, id, other)
      ensures Out(members[other], policy, now) <==> MemberState(members[other], policy, now).Down? || MemberState(members[other], policy, now).Maintenance?
    {
      ShareExactly(members, id, other);
    }
  }

  /** A location on one server is healthy as soon as one of its transports answers. */
  lemma OneServerIsHealthy(members: map<Member, Facts>, policy: Policy, now: Time, address: string)
    requires address != "" && forall id :: id in Visible(members) ==> members[id].server == address
    requires exists id :: id in Visible(members) && Answers(members[id])
    ensures Flat(members, policy, now).Healthy?
  {
    PartialInFacts(members, policy, now);
    var some :| some in Visible(members) && Answers(members[some]);
    forall id | id in Visible(members) ensures !AddressOut(members, policy, now, id) {
      assert Share(members, id, some) && !Out(members[some], policy, now);
    }
  }

  // ----- the fold -----

  function OnServer(members: map<Member, Facts>, policy: Policy, now: Time, done: set<Member>, key: string): map<string, State> {
    map id | id in done && id in members && ServerKey(id, members[id]) == key :: MemberState(members[id], policy, now)
  }

  ghost predicate FoldedAt(members: map<Member, Facts>, policy: Policy, now: Time, done: set<Member>, servers: map<string, Aggregate>, key: string) {
    var on := OnServer(members, policy, now, done, key);
    if key in servers then on != map[] && Counts(servers[key], on) else on == map[]
  }

  ghost predicate Folded(members: map<Member, Facts>, policy: Policy, now: Time, done: set<Member>, servers: map<string, Aggregate>) {
    forall key :: FoldedAt(members, policy, now, done, servers, key)
  }

  lemma OnServerWithOneMore(members: map<Member, Facts>, policy: Policy, now: Time, done: set<Member>, id: Member, key: string)
    requires id in members && id !in done
    ensures OnServer(members, policy, now, done + {id}, key) ==
            if key == ServerKey(id, members[id])
            then OnServer(members, policy, now, done, key)[id := MemberState(members[id], policy, now)]
            else OnServer(members, policy, now, done, key)
  {
  }

  lemma FoldOneMore(members: map<Member, Facts>, policy: Policy, now: Time, done: set<Member>, servers: map<string, Aggregate>, id: Member)
    requires Folded(members, policy, now, done, servers) && id in members && id !in done
    ensures var key := ServerKey(id, members[id]);
            var item := if key in servers then servers[key] else NOTHING;
            Folded(members, policy, now, done + {id}, servers[key := Add(item, MemberState(members[id], policy, now))])
  {
    var key := ServerKey(id, members[id]);
    var item := if key in servers then servers[key] else NOTHING;
    var servers' := servers[key := Add(item, MemberState(members[id], policy, now))];
    forall other ensures FoldedAt(members, policy, now, done + {id}, servers', other) {
      OnServerWithOneMore(members, policy, now, done, id, other);
      assert FoldedAt(members, policy, now, done, servers, other);
      if other == key {
        AddCounts(item, OnServer(members, policy, now, done, key), id, MemberState(members[id], policy, now));
      }
    }
  }

  method FoldMembers(members: map<Member, Facts>, policy: Policy, now: Time) returns (servers: map<string, Aggregate>)
    ensures Folded(members, policy, now, Visible(members), servers)
  {
    servers := map[];
    var left := members.Keys;
    ghost var done: set<Member> := {};
    while left != {}
      invariant left <= members.Keys && done == Visible(members) - left
      invariant Folded(members, policy, now, done, servers)
      decreases left
    {
      var id :| id in left;
      left := left - {id};
      var facts := members[id];
      if facts.visible {
        var key := ServerKey(id, facts);
        FoldOneMore(members, policy, now, done, servers, id);
        done := done + {id};
        var item := if key in servers then servers[key] else NOTHING;
        servers := servers[key := Add(item, MemberState(facts, policy, now))];
      }
    }
    assert done == Visible(members);
  }

  function States(servers: map<string, Aggregate>, keys: set<string>): map<string, State> {
    map key | key in keys && key in servers :: StateOf(servers[key])
  }

  lemma AddServer(overall: Aggregate, servers: map<string, Aggregate>, done: set<string>, key: string)
    requires done <= servers.Keys && key in servers && key !in done && Counts(overall, States(servers, done))
    ensures Counts(Add(overall, StateOf(servers[key])), States(servers, done + {key}))
  {
    AddCounts(overall, States(servers, done), key, StateOf(servers[key]));
    assert States(servers, done + {key}) == States(servers, done)[key := StateOf(servers[key])];
  }

  method FoldServers(servers: map<string, Aggregate>) returns (overall: Aggregate)
    ensures Counts(overall, States(servers, servers.Keys))
  {
    overall := NOTHING;
    var left := servers.Keys;
    while left != {}
      invariant left <= servers.Keys
      invariant Counts(overall, States(servers, servers.Keys - left))
      decreases left
    {
      var key :| key in left;
      ghost var done := servers.Keys - left;
      AddServer(overall, servers, done, key);
      overall := Add(overall, StateOf(servers[key]));
      left := left - {key};
      assert servers.Keys - left == done + {key};
    }
    assert servers.Keys - left == servers.Keys;
  }

  /** evaluateLocations for one location; None when no member is visible. */
  method Evaluate(members: map<Member, Facts>, policy: Policy, now: Time) returns (state: Option<State>)
    ensures state == if Visible(members) == {} then None else Some(Flat(members, policy, now))
  {
    var servers := FoldMembers(members, policy, now);
    EveryMemberHasAServer(members, policy, now, servers);
    if servers == map[] {
      return None;
    }
    var overall := FoldServers(servers);
    FoldIsFlat(members, policy, now, servers, overall);
    return Some(StateOf(overall));
  }

  lemma EveryMemberHasAServer(members: map<Member, Facts>, policy: Policy, now: Time, servers: map<string, Aggregate>)
    requires Folded(members, policy, now, Visible(members), servers)
    ensures forall id :: id in Visible(members) ==> ServerKey(id, members[id]) in servers
    ensures forall key :: key in servers ==> exists id :: id in Visible(members) && ServerKey(id, members[id]) == key
  {
    forall id | id in Visible(members)
      ensures ServerKey(id, members[id]) in servers
    {
      assert FoldedAt(members, policy, now, Visible(members), servers, ServerKey(id, members[id]));
      assert id in OnServer(members, policy, now, Visible(members), ServerKey(id, members[id]));
    }
    forall key | key in servers
      ensures exists id :: id in Visible(members) && ServerKey(id, members[id]) == key
    {
      assert FoldedAt(members, policy, now, Visible(members), servers, key);
      var on := OnServer(members, policy, now, Visible(members), key);
      assert on.Keys != {};
      var id :| id in on;
    }
  }

  /** Some visible member on this server says `s`. */
  ghost predicate Says(members: map<Member, Facts>, policy: Policy, now: Time, key: string, s: State) {
    exists id :: id in Visible(members) && ServerKey(id, members[id]) == key && MemberState(members[id], policy, now) == s
  }

  lemma SaysIsCounted(members: map<Member, Facts>, policy: Policy, now: Time, key: string, s: State)
    ensures Says(members, policy, now, key, s) <==> Number(OnServer(members, policy, now, Visible(members), key), s) > 0
  {
    var on := OnServer(members, policy, now, Visible(members), key);
    if id :| id in Visible(members) && ServerKey(id, members[id]) == key && MemberState(members[id], policy, now) == s {
      assert id in Those(on, s);
    }
    if id :| id in Those(on, s) {
      assert id in Visible(members) && ServerKey(id, members[id]) == key;
    }
  }

  /** A server's state in terms of the location's members. */
  ghost function ServerFlat(members: map<Member, Facts>, policy: Policy, now: Time, key: string): State {
    if Says(members, policy, now, key, Healthy) then
      (if Says(members, policy, now, key, Down) || Says(members, policy, now, key, Maintenance) then Partial else Healthy)
    else if Says(members, policy, now, key, Ambiguous) then Ambiguous
    else if Says(members, policy, now, key, Pending) then Pending
    else if Says(members, policy, now, key, Down) then Down
    else Maintenance
  }

  lemma ServerIsFlat(members: map<Member, Facts>, policy: Policy, now: Time, servers: map<string, Aggregate>, key: string)
    requires Folded(members, policy, now, Visible(members), servers) && key in servers
    ensures StateOf(servers[key]) == ServerFlat(members, policy, now, key)
  {
    var on := OnServer(members, policy, now, Visible(members), key);
    assert FoldedAt(members, policy, now, Visible(members), servers, key);
    StateOfCounted(servers[key], on);
    assert Number(on, Partial) == 0 by {
      assert Those(on, Partial) == {};
    }
    SaysIsCounted(members, policy, now, key, Healthy);
    SaysIsCounted(members, policy, now, key, Ambiguous);
    SaysIsCounted(members, policy, now, key, Pending);
    SaysIsCounted(members, policy, now, key, Down);
    SaysIsCounted(members, policy, now, key, Maintenance);
  }

  lemma FoldIsFlat(members: map<Member, Facts>, policy: Policy, now: Time, servers: map<string, Aggregate>, overall: Aggregate)
    requires Folded(members, policy, now, Visible(members), servers) && servers != map[]
    requires Counts(overall, States(servers, servers.Keys))
    ensures Visible(members) != {} && StateOf(overall) == Flat(members, policy, now)
  {
    var things := States(servers, servers.Keys);
    assert things.Keys == servers.Keys;
    EveryMemberHasAServer(members, policy, now, servers);
    forall key | key in servers
      ensures things[key] == ServerFlat(members, policy, now, key)
    {
      ServerIsFlat(members, policy, now, servers, key);
    }
    StateOfCounted(overall, things);
    ServersAreFlat(members, policy, now, things);
  }

  /** Folding the servers' states is reading the members. */
  lemma ServersAreFlat(members: map<Member, Facts>, policy: Policy, now: Time, things: map<string, State>)
    requires things != map[] && AreServers(members, policy, now, things)
    ensures Visible(members) != {}
    ensures Flat(members, policy, now) ==
            if Number(things, Healthy) + Number(things, Partial) > 0 && Number(things, Down) + Number(things, Maintenance) > 0 then Partial
            else Reported(Number(things, Healthy), Number(things, Partial), Number(things, Ambiguous), Number(things, Pending), Number(things, Down))
  {
    FailedServers(members, policy, now, things);
    HealthyServers(members, policy, now, things);
    if !Somewhere(members, policy, now, Healthy) {
      Level(members, policy, now, things, Ambiguous);
      if !Somewhere(members, policy, now, Ambiguous) {
        Level(members, policy, now, things, Pending);
        if !Somewhere(members, policy, now, Pending) {
          Level(members, policy, now, things, Down);
        }
      }
    }
    assert things.Keys != {};
    var key :| key in things;
  }

  /** These are the states of the servers the visible members are on. */
  ghost predicate AreServers(members: map<Member, Facts>, policy: Policy, now: Time, things: map<string, State>) {
    && (forall id :: id in Visible(members) ==> ServerKey(id, members[id]) in things)
    && (forall key :: key in things ==> exists id :: id in Visible(members) && ServerKey(id, members[id]) == key)
    && (forall key :: key in things ==> things[key] == ServerFlat(members, policy, now, key))
  }

  lemma InNumber(things: map<string, State>, key: string)
    requires key in things
    ensures Number(things, things[key]) > 0
  {
    assert key in Those(things, things[key]);
  }

  lemma AnsweringServer(members: map<Member, Facts>, policy: Policy, now: Time, things: map<string, State>, key: string)
    requires key in things && things[key] == ServerFlat(members, policy, now, key) && Says(members, policy, now, key, Healthy)
    ensures Number(things, Healthy) + Number(things, Partial) > 0
  {
    InNumber(things, key);
  }

  lemma AnsweringMember(members: map<Member, Facts>, policy: Policy, now: Time, key: string)
    requires ServerFlat(members, policy, now, key).Healthy? || ServerFlat(members, policy, now, key).Partial?
    ensures Somewhere(members, policy, now, Healthy)
  {
    assert Says(members, policy, now, key, Healthy);
  }

  lemma HealthyServers(members: map<Member, Facts>, policy: Policy, now: Time, things: map<string, State>)
    requires AreServers(members, policy, now, things)
    ensures Somewhere(members, policy, now, Healthy) <==> Number(things, Healthy) + Number(things, Partial) > 0
  {
    if id :| id in Visible(members) && MemberState(members[id], policy, now) == Healthy {
      assert Says(members, policy, now, ServerKey(id, members[id]), Healthy);
      AnsweringServer(members, policy, now, things, ServerKey(id, members[id]));
    }
    if key :| key in Those(things, Healthy) + Those(things, Partial) {
      AnsweringMember(members, policy, now, key);
    }
  }

  /** When nothing more important is said anywhere, `s` is said somewhere exactly when some server
      reports it. */
  lemma Level(members: map<Member, Facts>, policy: Policy, now: Time, things: map<string, State>, s: State)
    requires AreServers(members, policy, now, things) && (s.Ambiguous? || s.Pending? || s.Down?)
    requires !Somewhere(members, policy, now, Healthy)
    requires !s.Ambiguous? ==> !Somewhere(members, policy, now, Ambiguous)
    requires s.Down? ==> !Somewhere(members, policy, now, Pending)
    ensures Somewhere(members, policy, now, s) <==> Number(things, s) > 0
  {
    if id :| id in Visible(members) && MemberState(members[id], policy, now) == s {
      LevelOfServer(members, policy, now, ServerKey(id, members[id]), id, s);
      InNumber(things, ServerKey(id, members[id]));
    }
    if key :| key in Those(things, s) {
      ServerSays(members, policy, now, key);
    }
  }

  lemma LevelOfServer(members: map<Member, Facts>, policy: Policy, now: Time, key: string, id: Member, s: State)
    requires id in Visible(members) && key == ServerKey(id, members[id]) && MemberState(members[id], policy, now) == s
    requires s.Ambiguous? || s.Pending? || s.Down?
    requires !Somewhere(members, policy, now, Healthy)
    requires !s.Ambiguous? ==> !Somewhere(members, policy, now, Ambiguous)
    requires s.Down? ==> !Somewhere(members, policy, now, Pending)
    ensures ServerFlat(members, policy, now, key) == s
  {
    assert Says(members, policy, now, key, s);
    NotSaidAnywhere(members, policy, now, key, Healthy);
    NotSaidAnywhere(members, policy, now, key, Ambiguous);
    NotSaidAnywhere(members, policy, now, key, Pending);
  }

  lemma NotSaidAnywhere(members: map<Member, Facts>, policy: Policy, now: Time, key: string, s: State)
    ensures Says(members, policy, now, key, s) ==> Somewhere(members, policy, now, s)
  {
  }

  lemma ServerSays(members: map<Member, Facts>, policy: Policy, now: Time, key: string)
    requires var s := ServerFlat(members, policy, now, key); s.Ambiguous? || s.Pending? || s.Down?
    ensures Somewhere(members, policy, now, ServerFlat(members, policy, now, key))
  {
    NotSaidAnywhere(members, policy, now, key, ServerFlat(members, policy, now, key));
  }

  lemma FailedServers(members: map<Member, Facts>, policy: Policy, now: Time, things: map<string, State>)
    requires AreServers(members, policy, now, things)
    ensures SomeServerFailed(members, policy, now) <==>
            Number(things, Down) + Number(things, Maintenance) > 0
  {
    forall key | key in things
      ensures ServerFailed(members, policy, now, key) <==> things[key].Down? || things[key].Maintenance?
    {
      FailedIsFlat(members, policy, now, key);
    }
    if id :| id in Visible(members) && ServerFailed(members, policy, now, ServerKey(id, members[id])) {
      InNumber(things, ServerKey(id, members[id]));
    }
    if key :| key in Those(things, Down) + Those(things, Maintenance) {
      assert ServerFailed(members, policy, now, key);
      var id :| id in Visible(members) && ServerKey(id, members[id]) == key;
    }
  }

  lemma FailedIsFlat(members: map<Member, Facts>, policy: Policy, now: Time, key: string)
    requires exists id :: id in Visible(members) && ServerKey(id, members[id]) == key
    ensures ServerFailed(members, policy, now, key) <==>
            ServerFlat(members, policy, now, key).Down? || ServerFlat(members, policy, now, key).Maintenance?
  {
    forall id | id in Visible(members) && ServerKey(id, members[id]) == key
      ensures Says(members, policy, now, key, MemberState(members[id], policy, now))
      ensures !MemberState(members[id], policy, now).Partial?
    {
    }
    var id :| id in Visible(members) && ServerKey(id, members[id]) == key;
  }
}
