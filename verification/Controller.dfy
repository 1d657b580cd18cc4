/**
  What the automation coordinator sees of the session controller: it may create one session with
  one job, and read any session. Choosing an agent and resolving the node are inputs.
*/
module Controller {
  import opened Wrappers
  import opened SessionSpec
  import opened SessionStore
  import opened Sessions

  /** Identifiers that have been given out and how sessions may have changed since: no identifier
      comes back, terminal sessions stay exactly as they are, and observations are never taken away. */
  predicate Evolved(before: map<string, Session>, issued: set<string>, after: map<string, Session>) {
    forall id :: id in issued && id in after ==>
      && id in before
      && (before[id].state.Terminal() ==> after[id] == before[id])
      && |before[id].observations| <= |after[id].observations|
  }

  lemma ReadAgain(a: map<string, Session>, b: map<string, Session>, c: map<string, Session>, now: Time)
    requires OnlyRead(a, b, now) && OnlyRead(b, c, now)
    ensures OnlyRead(a, c, now) && (c == b || c == OverdueAll(a, now))
  {
  }

  lemma EvolvedTransitive(a: map<string, Session>, b: map<string, Session>, c: map<string, Session>, issued: set<string>, more: set<string>)
    requires Evolved(a, issued, b) && Evolved(b, more, c) && issued <= more
    ensures Evolved(a, issued, c)
  {
  }

  predicate IsInFlight(sessions: map<string, Session>, id: string) {
    id in sessions && !sessions[id].state.Terminal()
  }

  datatype View = View(terminal: bool, observations: nat)

  function ViewOf(sessions: map<string, Session>, id: string): Option<View> {
    if id in sessions then Some(View(sessions[id].state.Terminal(), |sessions[id].observations|)) else None
  }

  /** Reading does nothing but expire what is overdue, so at one time it always shows the same. */
  predicate OnlyRead(before: map<string, Session>, after: map<string, Session>, now: Time) {
    (after == before || after == OverdueAll(before, now)) && OverdueAll(after, now) == OverdueAll(before, now)
  }

  /** The agent the controller chose, or why there is none. */
  datatype Choice = Refused | Agent(id: string, profile: Profile)

  /** The manager takes a session with one job for the chosen agent. */
  predicate Takes(sessions: map<string, Session>, cfg: Config, request: Request, choice: Choice, id: string, now: Time) {
    && choice.Agent? && !BadRequest(request.(agents := [choice.id]), id, now, cfg)
    && (request.expiresAt == 0 ==> cfg.ttl > 0) && HasRoom(sessions, cfg.maxSessions)
  }

  predicate NewNames(st: Store, choice: Choice, jobId: string, nonce: string) {
    IsToken(jobId) && IsToken(nonce) && jobId !in st.jobs && (choice.Agent? ==> NonceKey(choice.id, nonce) !in st.reserved)
  }

  /** A session that waits for the answer of this one agent. */
  predicate Waits(s: Session, request: Request, agent: string, jobId: string, nonce: string) {
    && s.stableId == request.stableId && s.generation == request.generation && s.fingerprint == request.fingerprint
    && s.agents == [agent] && s.observations == [] && s.state == Dispatching && |s.jobs| == 1
    && s.jobs[0].id == jobId && s.jobs[0].binding == Binding(s.id, agent, nonce, s.stableId, s.generation, s.fingerprint)
    && s.jobs[0].state.Pending? && s.jobs[0].expiresAt == s.expiresAt
  }

  lemma OneAgent(s: Session, agent: string)
    requires Distinct(s.agents) && forall a :: a in s.agents <==> a in [agent]
    ensures s.agents == [agent]
  {
    DistinctSize(s.agents, [agent]);
    assert (set a | a in [agent]) == {agent};
    assert s.agents[0] in s.agents;
  }

  /** A session that was just stored is not overdue yet, and its one job can be registered. */
  lemma FreshIsTaken(st: Store, id: string, request: Request, choice: Choice, jobId: string, nonce: string, now: Time, cfg: Config)
    requires choice.Agent? && id in st.sessions && IsCreated(st.sessions[id], request.(agents := [choice.id]), id, now, cfg)
    requires request.expiresAt != 0 ==> request.expiresAt > now
    requires NewNames(st, choice, jobId, nonce)
    ensures var all := st.(sessions := OverdueAll(st.sessions, now));
            RegisterError(all, id, choice.id, request.expiresAt, jobId, nonce, now).None? <==> (request.expiresAt == 0 ==> cfg.ttl > 0)
  {
    OneAgent(st.sessions[id], choice.id);
    assert choice.id in st.sessions[id].agents;
  }

  /** What registering the job of a session that was just stored comes to. */
  lemma JobIsTaken(st: Store, after: Store, error: Option<Error>, id: string, request: Request, choice: Choice, jobId: string, nonce: string, now: Time, cfg: Config)
    requires choice.Agent? && id in st.sessions && IsCreated(st.sessions[id], request.(agents := [choice.id]), id, now, cfg)
    requires request.expiresAt != 0 ==> request.expiresAt > now
    requires var all := st.(sessions := OverdueAll(st.sessions, now));
             && error == RegisterError(all, id, choice.id, request.expiresAt, jobId, nonce, now)
             && (error.None? ==>
                   id in all.sessions && after == Registered(all, id, NewJob(all.sessions[id], choice.id, choice.profile, request.expiresAt, jobId, nonce, now), now))
    ensures error.None? ==> id in after.sessions && Waits(after.sessions[id], request, choice.id, jobId, nonce)
    ensures NewNames(st, choice, jobId, nonce) ==> (error.None? <==> (request.expiresAt == 0 ==> cfg.ttl > 0))
  {
    if NewNames(st, choice, jobId, nonce) {
      FreshIsTaken(st, id, request, choice, jobId, nonce, now, cfg);
    }
    if error.None? {
      NotOverdue(st, id, request, choice, jobId, nonce, now, cfg);
      RegisteredWaits(st.sessions[id], request, choice.id, choice.profile, jobId, nonce, now, cfg);
    }
  }

  lemma RegisteredWaits(s: Session, request: Request, agent: string, profile: Profile, jobId: string, nonce: string, now: Time, cfg: Config)
    requires IsCreated(s, request.(agents := [agent]), s.id, now, cfg) && s.expiresAt > now
    ensures var all := Overdue(s, now);
            && all == s
            && Waits(Derived(s.(jobs := [NewJob(s, agent, profile, request.expiresAt, jobId, nonce, now)]), now), request, agent, jobId, nonce)
  {
    OneAgent(s, agent);
    assert OverdueExpired([], now) == [];
    var job := NewJob(s, agent, profile, request.expiresAt, jobId, nonce, now);
    var t := s.(jobs := [job]);
    assert CompletedCount(t.jobs) == 0 && TerminalCount(t.jobs) == 0 && !SomeRunning(t.jobs);
  }

  /** A job was registered, so the session was still open. */
  lemma NotOverdue(st: Store, id: string, request: Request, choice: Choice, jobId: string, nonce: string, now: Time, cfg: Config)
    requires choice.Agent? && id in st.sessions && IsCreated(st.sessions[id], request.(agents := [choice.id]), id, now, cfg)
    requires RegisterError(st.(sessions := OverdueAll(st.sessions, now)), id, choice.id, request.expiresAt, jobId, nonce, now).None?
    ensures st.sessions[id].expiresAt > now && Overdue(st.sessions[id], now) == st.sessions[id]
  {
    OneAgent(st.sessions[id], choice.id);
    assert OverdueExpired([], now) == [];
  }

  lemma AdvancesEvolve(before: map<string, Session>, after: map<string, Session>, issued: set<string>)
    requires OnlyAdvances(before, after) && forall id :: id in issued && id in after ==> id in before
    ensures Evolved(before, issued, after)
  {
  }

  /** What agents, operators and the reachability sweep do to sessions. */
  datatype Operation =
    | Create(request: Request, id: string)
    | Register(session: string, agent: string, profile: Profile, profileValid: bool, expiresAt: Time, jobId: string, nonce: string)
    | Advance(jobId: string, next: JobState)
    | Answer(observation: Observation, wellFormed: bool)
    | CancelIt(session: string)
    | DeleteIt(session: string)
    | LookAt(session: string)

  /** The identifier an operation gives out. */
  function Given(op: Operation): set<string> {
    if op.Create? then {op.id} else {}
  }

  datatype Call = Call(operation: Operation, now: Time)

  /** Identifiers are never generated twice, and an agent moves its job forward only. */
  predicate Callable(op: Operation, issued: set<string>) {
    Given(op) !! issued && (op.Advance? ==> op.next.Dispatched? || op.next.Running?)
  }

  predicate AllCallable(calls: seq<Call>, issued: set<string>)
    decreases |calls|
  {
    calls != [] ==> Callable(calls[0].operation, issued) && AllCallable(calls[1..], issued + Given(calls[0].operation))
  }

  class Controller {
    const manager: Manager
    ghost var issued: set<string>

    ghost predicate Valid()
      reads this, manager
    {
      manager.Valid() && manager.sessions.Keys <= issued
    }

    constructor (manager: Manager)
      requires manager.Valid()
      ensures Valid() && this.manager == manager && issued == manager.sessions.Keys
    {
      this.manager := manager;
      issued := manager.sessions.Keys;
    }

    /** Reading a session. */
    method Read(id: string, now: Time) returns (view: Option<View>)
      requires Valid()
      modifies manager`sessions
      ensures Valid() && Evolved(old(manager.sessions), issued, manager.sessions)
      ensures OnlyRead(old(manager.sessions), manager.sessions, now) && manager.sessions == OverdueAll(old(manager.sessions), now)
      ensures view == ViewOf(OverdueAll(old(manager.sessions), now), id)
    {
      ghost var before := manager.sessions;
      OverdueTwice(manager.Contents(), now);
      var s := manager.Lookup(id, now);
      AdvancesEvolve(before, manager.sessions, issued);
      if s.None? {
        return None;
      }
      return Some(View(s.value.state.Terminal(), |s.value.observations|));
    }

    /** CreateAutomatic: a session whose job cannot be registered is cancelled again, so a refusal
        never leaves one in flight. */
    method CreateAutomatic(request: Request, choice: Choice, id: string, jobId: string, nonce: string, now: Time) returns (created: Option<string>)
      requires Valid() && id !in issued
      modifies this`issued, manager
      ensures Valid() && Evolved(old(manager.sessions), old(issued), manager.sessions)
      ensures issued == old(issued) + {id}
      ensures created.Some? ==> created.value == id && choice.Agent? && id in manager.sessions && Waits(manager.sessions[id], request, choice.id, jobId, nonce)
      ensures created.None? ==> !IsInFlight(manager.sessions, id)
      ensures NewNames(old(manager.Contents()), choice, jobId, nonce) ==>
                (created.Some? <==> Takes(OverdueAll(old(manager.sessions), now), manager.config, request, choice, id, now))
    {
      issued := issued + {id};
      if choice.Refused? {
        return None;
      }
      ghost var before := manager.sessions;
      var error := manager.CreateSession(request.(agents := [choice.id]), id, now);
      ghost var inserted := manager.sessions;
      AdvancesEvolve(before, inserted, old(issued));
      if error.Some? {
        return None;
      }
      assert IsToken([choice.id][0]);
      created := RegisterOrCancel(request, choice, id, jobId, nonce, now);
      EvolvedTransitive(before, inserted, manager.sessions, old(issued), issued);
    }

    method RegisterOrCancel(request: Request, choice: Choice, id: string, jobId: string, nonce: string, now: Time) returns (created: Option<string>)
      requires Valid() && choice.Agent? && id in manager.sessions && IsToken(id) && IsToken(choice.id)
      requires IsCreated(manager.sessions[id], request.(agents := [choice.id]), id, now, manager.config)
      requires request.expiresAt != 0 ==> request.expiresAt > now
      modifies manager
      ensures Valid() && Evolved(old(manager.sessions), issued, manager.sessions)
      ensures created == None || created == Some(id)
      ensures created.Some? ==> id in manager.sessions && Waits(manager.sessions[id], request, choice.id, jobId, nonce)
      ensures created.None? ==> !IsInFlight(manager.sessions, id)
      ensures NewNames(old(manager.Contents()), choice, jobId, nonce) ==> (created.Some? <==> (request.expiresAt == 0 ==> manager.config.ttl > 0))
    {
      ghost var before := manager.sessions;
      var ok := Register(request, choice, id, jobId, nonce, now);
      if ok {
        return Some(id);
      }
      ghost var registered := manager.sessions;
      Cancel(id, now);
      EvolvedTransitive(before, registered, manager.sessions, issued, issued);
      return None;
    }

    method Register(request: Request, choice: Choice, id: string, jobId: string, nonce: string, now: Time) returns (ok: bool)
      requires Valid() && choice.Agent? && id in manager.sessions && IsToken(id) && IsToken(choice.id)
      requires IsCreated(manager.sessions[id], request.(agents := [choice.id]), id, now, manager.config)
      requires request.expiresAt != 0 ==> request.expiresAt > now
      modifies manager
      ensures Valid() && Evolved(old(manager.sessions), issued, manager.sessions)
      ensures manager.sessions.Keys == old(manager.sessions.Keys)
      ensures ok ==> id in manager.sessions && Waits(manager.sessions[id], request, choice.id, jobId, nonce)
      ensures NewNames(old(manager.Contents()), choice, jobId, nonce) ==> (ok <==> (request.expiresAt == 0 ==> manager.config.ttl > 0))
    {
      ghost var before := manager.Contents();
      var error := manager.RegisterJob(id, choice.id, choice.profile, true, request.expiresAt, jobId, nonce, now);
      AdvancesEvolve(before.sessions, manager.sessions, issued);
      JobIsTaken(before, manager.Contents(), error, id, request, choice, jobId, nonce, now, manager.config);
      return error.None?;
    }

    method Cancel(id: string, now: Time)
      requires Valid()
      modifies manager`sessions
      ensures Valid() && Evolved(old(manager.sessions), issued, manager.sessions)
      ensures manager.sessions.Keys == old(manager.sessions.Keys)
      ensures !IsInFlight(manager.sessions, id)
    {
      ghost var before := manager.sessions;
      var _ := manager.CancelSession(id, now);
      AdvancesEvolve(before, manager.sessions, issued);
    }

    /** Every operation of others on the manager: none brings an identifier back, reopens a terminal
        session or takes an observation away. */
    method Operate(op: Operation, now: Time)
      requires Valid() && Callable(op, issued)
      modifies this`issued, manager
      ensures Valid() && issued == old(issued) + Given(op)
      ensures Evolved(old(manager.sessions), old(issued), manager.sessions)
    {
      ghost var before, known := manager.sessions, issued;
      issued := issued + Given(op);
      match op
      case Create(request, id) =>
        var _ := manager.CreateSession(request, id, now);
      case Register(session, agent, profile, profileValid, expiresAt, jobId, nonce) =>
        var _ := manager.RegisterJob(session, agent, profile, profileValid, expiresAt, jobId, nonce, now);
      case Advance(jobId, next) =>
        var _ := manager.Transition(jobId, next, now);
      case Answer(o, wellFormed) =>
        var _ := manager.AcceptObservation(o, wellFormed, now);
      case CancelIt(session) =>
        var _ := manager.CancelSession(session, now);
      case DeleteIt(session) =>
        var _ := manager.DeleteSession(session);
      case LookAt(session) =>
        var _ := manager.Lookup(session, now);
      AdvancesEvolve(before, manager.sessions, known);
    }

    /** Over every run of them: a session that was terminal is gone or exactly what it was, whatever
        was done to the others. */
    method OperateAll(calls: seq<Call>)
      requires Valid() && AllCallable(calls, issued)
      modifies this`issued, manager
      ensures Valid() && old(issued) <= issued
      ensures Evolved(old(manager.sessions), old(issued), manager.sessions)
      ensures forall id :: id in old(manager.sessions) && old(manager.sessions)[id].state.Terminal() && id in manager.sessions ==>
                manager.sessions[id] == old(manager.sessions)[id]
      ensures forall id, i :: id in manager.sessions && 0 <= i < |manager.sessions[id].observations| ==> manager.sessions[id].observations[i].signed
      decreases |calls|
    {
      if calls == [] {
        AllSigned(manager.Contents());
        return;
      }
      ghost var before, known := manager.sessions, issued;
      Operate(calls[0].operation, calls[0].now);
      ghost var middle, more := manager.sessions, issued;
      OperateAll(calls[1..]);
      EvolvedTransitive(before, middle, manager.sessions, known, more);
    }
  }
}
