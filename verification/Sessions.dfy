/**
  The diagnostic session manager. Clocks, generated identifiers and the verdict of the signature
  check are inputs; identifiers and texts arrive trimmed.
*/
module Sessions {
  import opened Wrappers
  import opened SessionSpec
  import opened SessionStore

  datatype Error = InvalidSchema | InvalidRequest | Capacity | UnknownSession | UnknownJob | DuplicateJob | InvalidSignature
                 | StaleObservation | StaleGeneration | BindingMismatch | Replay | DuplicateObservation
                 | SessionExpired | SessionCancelled | InvalidTransition

  datatype Config = Config(ttl: nat, maxAge: nat, skew: nat, maxSessions: nat, maxAgents: nat)

  /** expiresAt is 0 when the caller names no deadline; wellFormed covers the fields not modelled. */
  datatype Request = Request(stableId: string, generation: nat, fingerprint: string, agents: seq<string>, expiresAt: Time, wellFormed: bool)

  function ActiveError(state: SessionState): Option<Error> {
    match state
    case TimedOut => Some(SessionExpired)
    case Partial => Some(SessionExpired)
    case Stopped => Some(SessionCancelled)
    case Done => Some(InvalidTransition)
    case _ => None
  }

  predicate Timely(o: Observation, j: Job, now: Time, cfg: Config) {
    && now - cfg.maxAge <= o.checkedAt <= now + cfg.skew
    && j.createdAt - cfg.skew <= o.checkedAt <= j.expiresAt + cfg.skew
  }

  /** Why an observation for this job is refused. */
  function AnswerError(s: Session, j: Job, used: bool, o: Observation, now: Time, cfg: Config): Option<Error> {
    if !Timely(o, j, now, cfg) then Some(StaleObservation)
    else if !o.signed then Some(InvalidSignature)
    else if j.state.Completed? then Some(DuplicateObservation)
    else if ActiveError(s.state).Some? then ActiveError(s.state)
    else if used then Some(Replay)
    else if o.binding.generation != j.binding.generation || o.binding.generation != s.generation then Some(StaleGeneration)
    else if !Binds(o.(job := j.id), j) then Some(BindingMismatch)
    else None
  }

  function OverdueAll(sessions: map<string, Session>, now: Time): (r: map<string, Session>)
    ensures r.Keys == sessions.Keys
    ensures forall id :: id in sessions ==> r[id] == Overdue(sessions[id], now)
  {
    map id | id in sessions :: Overdue(sessions[id], now)
  }

  /** A terminal session that is still there is exactly what it was, and no session loses an
      observation. */
  predicate OnlyAdvances(before: map<string, Session>, after: map<string, Session>) {
    forall id :: id in before && id in after ==>
      && (before[id].state.Terminal() ==> after[id] == before[id])
      && |before[id].observations| <= |after[id].observations|
  }

  predicate OldestTerminal(sessions: map<string, Session>, id: string) {
    && id in sessions && sessions[id].state.Terminal()
    && forall other :: other in sessions && sessions[other].state.Terminal() ==> sessions[id].createdAt <= sessions[other].createdAt
  }

  /** Storing a session removes at most one other, the oldest terminal one, and only when there is no
      room; without one to remove it is refused. */
  predicate RoomMade(before: map<string, Session>, after: map<string, Session>, id: string, error: Option<Error>, max: nat) {
    && (error.None? ==> id in after && id !in before)
    && (forall other :: other in after && (other != id || error.Some?) ==> other in before && after[other] == before[other])
    && (forall other :: other in before && other !in after ==> error.None? && |before| == max && OldestTerminal(before, other))
    && |after| >= |before|
  }

  /** A new session fits, or a terminal one can go for it. */
  predicate HasRoom(sessions: map<string, Session>, max: nat) {
    |sessions| < max || exists id :: id in sessions && sessions[id].state.Terminal()
  }

  /** What the manager refuses before it looks at its sessions. */
  predicate BadRequest(request: Request, id: string, now: Time, cfg: Config) {
    || !request.wellFormed || !IsToken(id) || (exists i :: 0 <= i < |request.agents| && !IsToken(request.agents[i]))
    || request.agents == [] || |set a | a in request.agents| > cfg.maxAgents
    || (request.expiresAt != 0 && (request.expiresAt <= now || request.expiresAt > now + cfg.ttl))
  }

  lemma RoomOnlyAdvances(before: map<string, Session>, all: map<string, Session>, after: map<string, Session>, id: string, error: Option<Error>, max: nat)
    requires OnlyAdvances(before, all) && before.Keys == all.Keys && RoomMade(all, after, id, error, max)
    ensures OnlyAdvances(before, after)
  {
  }

  ghost predicate Sound(sessions: map<string, Session>, id: string)
    requires id in sessions
  {
    sessions[id].id == id && SessionInv(sessions[id])
  }

  ghost predicate StoreInv(st: Store) {
    Agree(st) && forall id {:trigger Sound(st.sessions, id)} :: id in st.sessions ==> Sound(st.sessions, id)
  }

  /** Nothing unsigned is ever stored. */
  lemma AllSigned(st: Store)
    requires StoreInv(st)
    ensures forall id, i :: id in st.sessions && 0 <= i < |st.sessions[id].observations| ==> st.sessions[id].observations[i].signed
  {
    forall id, i | id in st.sessions && 0 <= i < |st.sessions[id].observations| ensures st.sessions[id].observations[i].signed {
      assert Sound(st.sessions, id);
      assert Answers(st.sessions[id], i);
    }
  }

  lemma OneSessionSound(before: map<string, Session>, s: Session)
    requires SessionInv(s)
    requires forall id {:trigger Sound(before, id)} :: id in before ==> Sound(before, id)
    ensures forall id {:trigger Sound(before[s.id := s], id)} :: id in before || id == s.id ==> Sound(before[s.id := s], id)
  {
    forall id | id in before || id == s.id ensures Sound(before[s.id := s], id) {
      if id != s.id {
        assert Sound(before, id);
      }
    }
  }

  class Manager {
    const config: Config
    var sessions: map<string, Session>
    var jobs: map<string, Ref>
    var usedNonces: set<string>
    var reservedNonces: map<string, string>

    function Contents(): Store
      reads this
    {
      Store(sessions, jobs, reservedNonces, usedNonces)
    }

    ghost predicate Valid()
      reads this
    {
      StoreInv(Contents()) && |sessions| <= config.maxSessions
    }

    constructor (config: Config)
      requires config.maxSessions >= 1 && config.maxAgents >= 1
      ensures Valid() && this.config == config && sessions == map[]
    {
      this.config := config;
      sessions, jobs, usedNonces, reservedNonces := map[], map[], {}, map[];
    }

    static method CountJobs(jobs: seq<Job>) returns (completed: nat, terminal: nat, running: bool)
      ensures completed == CompletedCount(jobs) && terminal == TerminalCount(jobs) && running == SomeRunning(jobs)
    {
      completed, terminal, running := 0, 0, false;
      for k := 0 to |jobs|
        invariant completed == CompletedCount(jobs[..k]) && terminal == TerminalCount(jobs[..k])
        invariant running <==> exists i :: 0 <= i < k && jobs[i].state.Running?
      {
        CountOneMore(jobs, k);
        var state := jobs[k].state;
        completed := if state.Completed? then completed + 1 else completed;
        terminal := if state.Terminal() then terminal + 1 else terminal;
        running := running || state.Running?;
      }
      assert jobs[..|jobs|] == jobs;
    }

    /** deriveSessionStateLocked, on a session taken out of the map. */
    static method Derive(s: Session, now: Time) returns (t: Session)
      ensures t == Derived(s, now)
    {
      if s.state.Stopped? {
        return s;
      }
      var completed, terminal, running := CountJobs(s.jobs);
      if |s.agents| > 0 && completed == |s.agents| {
        return s.(state := Done);
      }
      if s.expiresAt <= now || (|s.jobs| == |s.agents| && terminal == |s.jobs|) {
        return s.(jobs := ExpiredOpen(s.jobs), state := if completed > 0 then Partial else TimedOut);
      }
      if running || completed > 0 {
        return s.(state := InProgress);
      }
      return s.(state := if |s.jobs| > 0 then Dispatching else Requested);
    }

    /** expireLocked: sessions are visited in any order. */
    method ExpireAll(now: Time)
      modifies this`sessions
      ensures sessions == OverdueAll(old(sessions), now)
    {
      var left := sessions.Keys;
      while left != {}
        invariant sessions.Keys == old(sessions.Keys) && left <= sessions.Keys
        invariant forall id :: id in sessions ==> sessions[id] == if id in left then old(sessions)[id] else Overdue(old(sessions)[id], now)
        decreases left
      {
        var id :| id in left;
        left := left - {id};
        var s := sessions[id];
        if !s.state.Terminal() {
          var t := Derive(s.(jobs := OverdueExpired(s.jobs, now)), now);
          sessions := sessions[id := t];
        }
      }
    }

    method Unindex(js: seq<Job>)
      modifies this`jobs, this`reservedNonces
      ensures jobs == old(jobs) - IdsOf(js) && reservedNonces == old(reservedNonces) - KeysOf(js)
    {
      for k := 0 to |js|
        invariant jobs == old(jobs) - IdsOf(js[..k]) && reservedNonces == old(reservedNonces) - KeysOf(js[..k])
      {
        OneMoreJob(js, k);
        jobs := jobs - {js[k].id};
        reservedNonces := reservedNonces - {Key(js[k])};
      }
      assert js[..|js|] == js;
    }

    method Unuse(os: seq<Observation>)
      modifies this`usedNonces
      ensures usedNonces == old(usedNonces) - AnswerKeysOf(os)
    {
      for k := 0 to |os|
        invariant usedNonces == old(usedNonces) - AnswerKeysOf(os[..k])
      {
        OneMoreAnswer(os, k);
        usedNonces := usedNonces - {NonceKey(os[k].binding.agent, os[k].binding.nonce)};
      }
      assert os[..|os|] == os;
    }

    /** removeSessionLocked. RemoveKeepsAgreement says that no other session loses anything by it. */
    method RemoveSession(id: string)
      requires id in sessions
      modifies this`sessions, this`jobs, this`usedNonces, this`reservedNonces
      ensures Contents() == Removed(old(Contents()), id)
    {
      var s := sessions[id];
      Unindex(s.jobs);
      Unuse(s.observations);
      sessions := sessions - {id};
    }

    // ----- operations -----

    /** normalizedAgentIDs: duplicates are dropped, one bad identifier refuses all. */
    static method NormalizedAgents(raw: seq<string>) returns (agents: Option<seq<string>>)
      ensures agents.None? <==> exists i :: 0 <= i < |raw| && !IsToken(raw[i])
      ensures agents.Some? ==> Distinct(agents.value) && AreTokens(agents.value) && forall a :: a in agents.value <==> a in raw
    {
      var result := [];
      for i := 0 to |raw|
        invariant Distinct(result) && AreTokens(result) && forall a :: a in result <==> a in raw[..i]
        invariant forall j :: 0 <= j < i ==> IsToken(raw[j])
      {
        if !IsToken(raw[i]) {
          return None;
        }
        if raw[i] !in result {
          result := result + [raw[i]];
        }
        assert raw[..i + 1] == raw[..i] + [raw[i]];
      }
      assert raw[..|raw|] == raw;
      return Some(result);
    }

    method OldestOf(candidates: set<string>) returns (oldest: string)
      requires candidates != {} && candidates <= sessions.Keys
      ensures oldest in candidates && forall other :: other in candidates ==> sessions[oldest].createdAt <= sessions[other].createdAt
    {
      oldest :| oldest in candidates;
      var left := candidates - {oldest};
      while left != {}
        invariant left <= candidates && oldest in candidates
        invariant forall other :: other in candidates - left ==> sessions[oldest].createdAt <= sessions[other].createdAt
        decreases left
      {
        var id :| id in left;
        left := left - {id};
        if sessions[id].createdAt < sessions[oldest].createdAt {
          oldest := id;
        }
      }
    }

    /** makeCapacityLocked: removes terminal sessions, the oldest first, until one more fits. */
    method MakeCapacity() returns (removed: Option<string>, ok: bool)
      requires |sessions| <= config.maxSessions
      modifies this`sessions, this`jobs, this`usedNonces, this`reservedNonces
      ensures removed.None? ==> Contents() == old(Contents())
      ensures removed.Some? ==> ok && OldestTerminal(old(sessions), removed.value) && Contents() == Removed(old(Contents()), removed.value)
      ensures ok ==> |sessions| < config.maxSessions
      ensures ok <==> HasRoom(old(sessions), config.maxSessions)
      ensures removed.Some? ==> |old(sessions)| == config.maxSessions
    {
      if |sessions| < config.maxSessions {
        return None, true;
      }
      var candidates := set id | id in sessions && sessions[id].state.Terminal();
      if candidates != {} {
        // one is enough: there are never more sessions than allowed
        var oldest := OldestOf(candidates);
        RemoveSession(oldest);
        assert old(sessions).Keys == sessions.Keys + {oldest};
        return Some(oldest), true;
      }
      forall id | id in sessions ensures !sessions[id].state.Terminal() {
        assert id !in candidates;
      }
      return None, false;
    }

    method CreateSession(request: Request, id: string, now: Time) returns (error: Option<Error>)
      requires Valid()
      modifies this`sessions, this`jobs, this`usedNonces, this`reservedNonces
      ensures Valid() && OnlyAdvances(old(sessions), sessions)
      ensures error == if BadRequest(request, id, now, config) || id in old(sessions) then Some(InvalidRequest)
                       else if HasRoom(OverdueAll(old(sessions), now), config.maxSessions) then None else Some(Capacity)
      ensures error.None? ==> id in sessions && IsCreated(sessions[id], request, id, now, config)
      // a bad request changes nothing; otherwise the other sessions only expire, and room is made
      ensures if BadRequest(request, id, now, config) then Contents() == old(Contents())
              else RoomMade(OverdueAll(old(sessions), now), sessions, id, error, config.maxSessions)
      ensures jobs.Keys <= old(jobs.Keys) && reservedNonces.Keys <= old(reservedNonces.Keys) && usedNonces <= old(usedNonces)
    {
      var session := NewSession(request, id, now);
      if session.None? {
        return Some(InvalidRequest);
      }
      error := CreateLive(session.value, now);
    }

    /** The part of CreateSession after the request was checked. */
    method CreateLive(session: Session, now: Time) returns (error: Option<Error>)
      requires Valid() && SessionInv(session) && session.jobs == []
      modifies this`sessions, this`jobs, this`usedNonces, this`reservedNonces
      ensures Valid() && OnlyAdvances(old(sessions), sessions)
      ensures error.None? ==> session.id in sessions && sessions[session.id] == session
      ensures error == if session.id in old(sessions) then Some(InvalidRequest)
                       else if HasRoom(OverdueAll(old(sessions), now), config.maxSessions) then None else Some(Capacity)
      ensures RoomMade(OverdueAll(old(sessions), now), sessions, session.id, error, config.maxSessions)
      ensures jobs.Keys <= old(jobs.Keys) && reservedNonces.Keys <= old(reservedNonces.Keys) && usedNonces <= old(usedNonces)
    {
      OverdueAllKeeps(Contents(), now);
      ExpireAll(now);
      ghost var all := sessions;
      if session.id in sessions {
        return Some(InvalidRequest);
      }
      error := Insert(session);
      RoomOnlyAdvances(old(sessions), all, sessions, session.id, error, config.maxSessions);
    }

    /** The checks of a request, and the session it asks for. */
    method NewSession(request: Request, id: string, now: Time) returns (session: Option<Session>)
      ensures session.Some? ==> SessionInv(session.value) && IsCreated(session.value, request, id, now, config)
      ensures session.None? <==> BadRequest(request, id, now, config)
    {
      var agents := NormalizedAgents(request.agents);
      if agents.None? {
        return None;
      }
      DistinctSize(agents.value, request.agents);
      if !request.wellFormed || |agents.value| == 0 || |agents.value| > config.maxAgents {
        return None;
      }
      if request.expiresAt != 0 && (request.expiresAt <= now || request.expiresAt > now + config.ttl) {
        return None;
      }
      if !IsToken(id) {
        return None;
      }
      var deadline := if request.expiresAt == 0 then now + config.ttl else request.expiresAt;
      return Some(Session(id, request.stableId, request.generation, request.fingerprint, agents.value, now, deadline, [], [], Requested));
    }

    /** The end of CreateSession: make room, then store. */
    method Insert(session: Session) returns (error: Option<Error>)
      requires Valid() && session.id !in sessions && SessionInv(session) && session.jobs == []
      modifies this`sessions, this`jobs, this`usedNonces, this`reservedNonces
      ensures Valid()
      ensures error == if HasRoom(old(sessions), config.maxSessions) then None else Some(Capacity)
      ensures error == None ==> session.id in sessions && sessions[session.id] == session
      ensures jobs.Keys <= old(jobs.Keys) && reservedNonces.Keys <= old(reservedNonces.Keys) && usedNonces <= old(usedNonces)
      ensures RoomMade(old(sessions), sessions, session.id, error, config.maxSessions)
    {
      var removed, ok := MakeCapacity();
      if !ok {
        return Some(Capacity);
      }
      if removed.Some? {
        RemovedKeeps(old(Contents()), removed.value);
      }
      InsertKeeps(Contents(), session);
      sessions := sessions[session.id := session];
      return None;
    }

    method RegisterJob(id: string, agent: string, profile: Profile, profileValid: bool, expiresAt: Time, jobId: string, nonce: string, now: Time)
      returns (error: Option<Error>)
      requires Valid()
      modifies this`sessions, this`jobs, this`reservedNonces
      ensures Valid() && OnlyAdvances(old(sessions), sessions) && sessions.Keys == old(sessions.Keys)
      ensures var st := old(Contents()).(sessions := OverdueAll(old(sessions), now));
              if error.None? then
                && id in st.sessions && RegisterError(st, id, agent, expiresAt, jobId, nonce, now).None?
                && Contents() == Registered(st, id, NewJob(st.sessions[id], agent, profile, expiresAt, jobId, nonce, now), now)
              else Contents() == if !IsToken(id) || !IsToken(agent) || !profileValid then old(Contents()) else st
      ensures var st := old(Contents()).(sessions := OverdueAll(old(sessions), now));
              error == if !IsToken(id) || !IsToken(agent) || !profileValid then Some(InvalidRequest)
                       else RegisterError(st, id, agent, expiresAt, jobId, nonce, now)
    {
      if !IsToken(id) || !IsToken(agent) || !profileValid {
        return Some(InvalidRequest);
      }
      OverdueAllKeeps(Contents(), now);
      ExpireAll(now);
      error := RegisterLive(id, agent, profile, expiresAt, jobId, nonce, now);
    }

    /** The part of RegisterJob after overdue sessions have expired. */
    method RegisterLive(id: string, agent: string, profile: Profile, expiresAt: Time, jobId: string, nonce: string, now: Time)
      returns (error: Option<Error>)
      requires Valid()
      modifies this`sessions, this`jobs, this`reservedNonces
      ensures Valid() && OnlyAdvances(old(sessions), sessions) && sessions.Keys == old(sessions.Keys)
      ensures error == RegisterError(old(Contents()), id, agent, expiresAt, jobId, nonce, now)
      ensures error.None? ==> id in old(sessions)
      ensures Contents() == if error.None?
                            then Registered(old(Contents()), id, NewJob(old(sessions)[id], agent, profile, expiresAt, jobId, nonce, now), now)
                            else old(Contents())
    {
      error := CheckRegister(id, agent, expiresAt, jobId, nonce, now);
      if error.None? {
        var s := sessions[id];
        assert Sound(sessions, id);
        var deadline := if expiresAt == 0 then s.expiresAt else expiresAt;
        var job := Job(jobId, Binding(s.id, agent, nonce, s.stableId, s.generation, s.fingerprint), profile, now, deadline, Pending);
        RegisterKeeps(Contents(), id, job, now);
        Append(s, job, now);
      }
    }

    method CheckRegister(id: string, agent: string, expiresAt: Time, jobId: string, nonce: string, now: Time) returns (error: Option<Error>)
      ensures error == RegisterError(Contents(), id, agent, expiresAt, jobId, nonce, now)
    {
      if id !in sessions {
        return Some(UnknownSession);
      }
      var s := sessions[id];
      if ActiveError(s.state).Some? {
        return ActiveError(s.state);
      }
      if agent !in s.agents {
        return Some(InvalidRequest);
      }
      for k := 0 to |s.jobs|
        invariant forall i :: 0 <= i < k ==> s.jobs[i].binding.agent != agent
      {
        if s.jobs[k].binding.agent == agent {
          return Some(DuplicateJob);
        }
      }
      if !IsToken(jobId) || !IsToken(nonce) || jobId in jobs || NonceKey(agent, nonce) in reservedNonces {
        return Some(InvalidRequest);
      }
      var deadline := if expiresAt == 0 then s.expiresAt else expiresAt;
      if deadline <= now || deadline > s.expiresAt {
        return Some(InvalidRequest);
      }
      return None;
    }

    /** Enter a new job in the session, the index and the reserved nonces. */
    method Append(s: Session, j: Job, now: Time)
      requires s.id in sessions && sessions[s.id] == s
      modifies this`sessions, this`jobs, this`reservedNonces
      ensures Contents() == Registered(old(Contents()), s.id, j, now)
    {
      var t := s.(jobs := s.jobs + [j]);
      jobs := jobs[j.id := Ref(s.id, |t.jobs| - 1)];
      reservedNonces := reservedNonces[NonceKey(j.binding.agent, j.binding.nonce) := j.id];
      t := Derive(t, now);
      sessions := sessions[s.id := t];
    }

    /** MarkJobDispatched and MarkJobRunning. */
    method Transition(jobId: string, next: JobState, now: Time) returns (error: Option<Error>)
      requires Valid() && (next.Dispatched? || next.Running?)
      modifies this`sessions
      ensures Valid() && OnlyAdvances(old(sessions), sessions) && sessions.Keys == old(sessions.Keys)
      ensures var st := old(Contents()).(sessions := OverdueAll(old(sessions), now));
              error == TransitionError(st, jobId, next)
              && Contents() == if error.None? then Moved(st, jobId, next, now) else st
    {
      OverdueAllKeeps(Contents(), now);
      ExpireAll(now);
      error := TransitionLive(jobId, next, now);
    }

    /** The part of transitionJob after overdue sessions have expired. */
    method TransitionLive(jobId: string, next: JobState, now: Time) returns (error: Option<Error>)
      requires Valid() && (next.Dispatched? || next.Running?)
      modifies this`sessions
      ensures Valid() && OnlyAdvances(old(sessions), sessions) && sessions.Keys == old(sessions.Keys)
      ensures error == TransitionError(old(Contents()), jobId, next)
      ensures Contents() == if error.None? then Moved(old(Contents()), jobId, next, now) else old(Contents())
    {
      if jobId !in jobs {
        return Some(UnknownJob);
      }
      assert Points(Contents(), jobId);
      var ref := jobs[jobId];
      var s := sessions[ref.session];
      if ActiveError(s.state).Some? {
        return ActiveError(s.state);
      }
      var state := s.jobs[ref.index].state;
      if !state.Pending? && !(next.Running? && state.Dispatched?) {
        return Some(InvalidTransition);
      }
      MoveKeeps(Contents(), jobId, next, now);
      var t := Derive(s.(jobs := s.jobs[ref.index := s.jobs[ref.index].(state := next)]), now);
      sessions := sessions[ref.session := t];
      return None;
    }

    method AcceptObservation(o: Observation, wellFormed: bool, now: Time) returns (error: Option<Error>)
      requires Valid()
      modifies this`sessions, this`usedNonces
      ensures Valid() && OnlyAdvances(old(sessions), sessions) && sessions.Keys == old(sessions.Keys)
      ensures var st := old(Contents()).(sessions := OverdueAll(old(sessions), now));
              && error == (if !wellFormed then Some(InvalidSchema) else AcceptError(st, o, now, config))
              && Contents() == if !wellFormed then old(Contents()) else if error.None? then Accepted(st, o, now) else st
      // accepted exactly in time, signed, for an open job of an open session it is bound to, with a fresh nonce
      ensures error.None? <==> wellFormed && Acceptable(old(Contents()).(sessions := OverdueAll(old(sessions), now)), o, now, config)
      ensures error.None? ==> HoldsObservation(sessions, o)
    {
      if !wellFormed {
        return Some(InvalidSchema);
      }
      OverdueAllKeeps(Contents(), now);
      ExpireAll(now);
      error := AcceptLive(o, now);
    }

    /** The part of AcceptObservation after overdue sessions have expired. */
    method AcceptLive(o: Observation, now: Time) returns (error: Option<Error>)
      requires Valid()
      modifies this`sessions, this`usedNonces
      ensures Valid() && OnlyAdvances(old(sessions), sessions) && sessions.Keys == old(sessions.Keys)
      ensures error == AcceptError(old(Contents()), o, now, config) && (error.None? <==> Acceptable(old(Contents()), o, now, config))
      ensures error.None? ==> HoldsObservation(sessions, o)
      ensures Contents() == if error.None? then Accepted(old(Contents()), o, now) else old(Contents())
    {
      AcceptedExactly(Contents(), o, now, config);
      if o.job !in jobs {
        return Some(UnknownJob);
      }
      assert Points(Contents(), o.job);
      var ref := jobs[o.job];
      var s := sessions[ref.session];
      error := CheckAnswer(s, s.jobs[ref.index], o, now);
      if error.None? {
        AcceptKeeps(Contents(), o, now, config);
        Record(ref, o, now);
        assert o in sessions[ref.session].observations by {
          assert sessions[ref.session].observations == s.observations + [o];
        }
      }
    }

    /** Store the observation, complete its job and use its nonce. */
    method Record(ref: Ref, o: Observation, now: Time)
      requires o.job in jobs && jobs[o.job] == ref && At(Contents(), ref)
      modifies this`sessions, this`usedNonces
      ensures Contents() == Accepted(old(Contents()), o, now)
    {
      var s := sessions[ref.session];
      s := s.(observations := s.observations + [o], jobs := s.jobs[ref.index := s.jobs[ref.index].(state := Completed)]);
      usedNonces := usedNonces + {NonceKey(o.binding.agent, o.binding.nonce)};
      s := Derive(s, now);
      sessions := sessions[ref.session := s];
    }

    /** The checks of one observation, in the order the manager makes them. */
    method CheckAnswer(s: Session, j: Job, o: Observation, now: Time) returns (error: Option<Error>)
      requires o.job == j.id
      ensures error == AnswerError(s, j, NonceKey(o.binding.agent, o.binding.nonce) in usedNonces, o, now, config)
    {
      if o.checkedAt < now - config.maxAge || o.checkedAt > now + config.skew {
        return Some(StaleObservation);
      }
      if o.checkedAt < j.createdAt - config.skew || o.checkedAt > j.expiresAt + config.skew {
        return Some(StaleObservation);
      }
      if !o.signed {
        return Some(InvalidSignature);
      }
      if j.state.Completed? {
        return Some(DuplicateObservation);
      }
      if ActiveError(s.state).Some? {
        return ActiveError(s.state);
      }
      if NonceKey(o.binding.agent, o.binding.nonce) in usedNonces {
        return Some(Replay);
      }
      if o.binding.generation != j.binding.generation || o.binding.generation != s.generation {
        return Some(StaleGeneration);
      }
      if o.binding != j.binding || o.profile != j.profile.id {
        return Some(BindingMismatch);
      }
      if o.alternative.Some? && (j.profile.alternative == "" || o.alternative.value != j.profile.alternative) {
        return Some(BindingMismatch);
      }
      if o.server != "" && o.server != j.profile.server {
        return Some(BindingMismatch);
      }
      return None;
    }

    method CancelSession(id: string, now: Time) returns (error: Option<Error>)
      requires Valid()
      modifies this`sessions
      ensures Valid() && OnlyAdvances(old(sessions), sessions) && sessions.Keys == old(sessions.Keys)
      ensures var all := OverdueAll(old(sessions), now);
              && error == (if id !in all then Some(UnknownSession) else if all[id].state.Terminal() then Some(InvalidTransition) else None)
              && sessions == if error.None? then all[id := all[id].(jobs := CancelledOpen(all[id].jobs), state := Stopped)] else all
    {
      OverdueAllKeeps(Contents(), now);
      ExpireAll(now);
      if id !in sessions {
        return Some(UnknownSession);
      }
      if sessions[id].state.Terminal() {
        return Some(InvalidTransition);
      }
      Cancel(id);
      return None;
    }

    method Cancel(id: string)
      requires Valid() && id in sessions && !sessions[id].state.Terminal()
      modifies this`sessions
      ensures Valid() && OnlyAdvances(old(sessions), sessions)
      ensures sessions == old(sessions)[id := old(sessions)[id].(jobs := CancelledOpen(old(sessions)[id].jobs), state := Stopped)]
    {
      CancelKeeps(Contents(), id);
      var s := sessions[id];
      sessions := sessions[id := s.(jobs := CancelledOpen(s.jobs), state := Stopped)];
    }

    method DeleteSession(id: string) returns (error: Option<Error>)
      requires Valid()
      modifies this`sessions, this`jobs, this`usedNonces, this`reservedNonces
      ensures Valid()
      ensures error == if id in old(sessions) then None else Some(UnknownSession)
      ensures Contents() == if error.None? then Removed(old(Contents()), id) else old(Contents())
    {
      if id !in sessions {
        return Some(UnknownSession);
      }
      RemovedKeeps(Contents(), id);
      RemoveSession(id);
      return None;
    }

    /** Reading a session also expires what is overdue. */
    method Lookup(id: string, now: Time) returns (s: Option<Session>)
      requires Valid()
      modifies this`sessions
      ensures Valid() && OnlyAdvances(old(sessions), sessions) && sessions.Keys == old(sessions.Keys) && sessions == OverdueAll(old(sessions), now)
      ensures s == if id in old(sessions) then Some(Overdue(old(sessions)[id], now)) else None
    {
      OverdueAllKeeps(Contents(), now);
      ExpireAll(now);
      return if id in sessions then Some(sessions[id]) else None;
    }
  }

  // ----- what keeps the manager's invariant -----

  lemma OverdueOne(st: Store, now: Time, id: string)
    requires StoreInv(st) && id in st.sessions
    ensures var s, t := st.sessions[id], Overdue(st.sessions[id], now);
            && SameJobs(s.jobs, t.jobs) && t.id == id && SessionInv(t)
            && (s.state.Terminal() ==> t == s) && |s.observations| == |t.observations|
            && (!t.state.Terminal() ==> now < s.expiresAt)
  {
    assert Sound(st.sessions, id);
    OverdueIsInv(st.sessions[id], now);
  }

  lemma OverdueAllKeeps(st: Store, now: Time)
    requires StoreInv(st)
    ensures StoreInv(st.(sessions := OverdueAll(st.sessions, now)))
    ensures OnlyAdvances(st.sessions, OverdueAll(st.sessions, now))
  {
    var after := OverdueAll(st.sessions, now);
    forall id | id in st.sessions
      ensures Sound(after, id) && SameJobs(st.sessions[id].jobs, after[id].jobs)
      ensures (st.sessions[id].state.Terminal() ==> after[id] == st.sessions[id]) && |st.sessions[id].observations| <= |after[id].observations|
    {
      OverdueOne(st, now, id);
    }
    SameJobsKeepAgreement(st, st.(sessions := after));
  }

  /** Expiring twice at one time is expiring once. */
  lemma OverdueTwice(st: Store, now: Time)
    requires StoreInv(st)
    ensures var once := OverdueAll(st.sessions, now); OverdueAll(once, now) == once
  {
    var once := OverdueAll(st.sessions, now);
    forall id | id in once ensures Overdue(once[id], now) == once[id] {
      OverdueOne(st, now, id);
      var jobs := OverdueExpired(st.sessions[id].jobs, now);
      if !once[id].state.Terminal() {
        assert once[id].jobs == jobs == OverdueExpired(jobs, now);
      }
    }
  }

  lemma RemovedKeeps(st: Store, id: string)
    requires StoreInv(st) && id in st.sessions
    ensures StoreInv(Removed(st, id)) && |Removed(st, id).sessions| == |st.sessions| - 1
  {
    assert Sound(st.sessions, id);
    RemoveKeepsAgreement(st, id);
    forall other | other in Removed(st, id).sessions ensures Sound(Removed(st, id).sessions, other) {
      assert Sound(st.sessions, other);
    }
    assert st.sessions.Keys == Removed(st, id).sessions.Keys + {id};
  }

  /** In every store a nonce is used if and only if a completed job of a live session has exactly that
      agent and that nonce. */
  lemma UsedExactly(st: Store, agent: string, nonce: string)
    requires StoreInv(st) && IsToken(agent)
    ensures NonceKey(agent, nonce) in st.used <==>
            exists r: Ref :: At(st, r) && JobAt(st, r).state.Completed? && JobAt(st, r).binding.agent == agent && JobAt(st, r).binding.nonce == nonce
  {
    forall r: Ref {:trigger JobAt(st, r)} | At(st, r) ensures IsToken(JobAt(st, r).binding.agent) {
      assert Sound(st.sessions, r.session);
      var s := st.sessions[r.session];
      var i :| 0 <= i < |s.agents| && s.agents[i] == JobAt(st, r).binding.agent;
      assert IsToken(s.agents[i]);
    }
    UsedByItsJob(st, agent, nonce);
  }

  // ----- what each operation does to the store -----

  ghost predicate IsCreated(s: Session, request: Request, id: string, now: Time, cfg: Config) {
    && s.id == id && s.stableId == request.stableId && s.generation == request.generation && s.fingerprint == request.fingerprint
    && Distinct(s.agents) && (forall a :: a in s.agents <==> a in request.agents)
    && s.createdAt == now && s.expiresAt == (if request.expiresAt == 0 then now + cfg.ttl else request.expiresAt)
    && s.jobs == [] && s.observations == [] && s.state == Requested
  }

  lemma DistinctSize(agents: seq<string>, raw: seq<string>)
    requires Distinct(agents) && forall a :: a in agents <==> a in raw
    ensures |agents| == |set a | a in raw| && (agents == [] <==> raw == [])
  {
    Cardinality(agents);
    assert (set a | a in agents) == (set a | a in raw);
    assert raw != [] ==> raw[0] in agents;
    assert agents != [] ==> agents[0] in raw;
  }

  /** A session that was not refused asks some agents, no more than allowed, and ends within the time
      allowed. */
  lemma CreatedInFacts(s: Session, request: Request, id: string, now: Time, cfg: Config)
    requires IsCreated(s, request, id, now, cfg) && !BadRequest(request, id, now, cfg)
    ensures IsToken(id) && 0 < |s.agents| <= cfg.maxAgents && forall a :: a in s.agents ==> IsToken(a)
    ensures if request.expiresAt == 0 then s.expiresAt == now + cfg.ttl else now < s.expiresAt <= now + cfg.ttl
  {
    DistinctSize(s.agents, request.agents);
  }

  lemma InsertAgrees(st: Store, s: Session)
    requires Agree(st) && s.id !in st.sessions && s.jobs == []
    ensures Agree(st.(sessions := st.sessions[s.id := s]))
  {
    var st' := st.(sessions := st.sessions[s.id := s]);
    forall r: Ref | At(st', r) ensures Indexed(st', r) {
      assert At(st, r) && Indexed(st, r);
    }
    forall id | id in st'.jobs ensures Points(st', id) {
      assert Points(st, id);
    }
    forall key | key in st'.reserved ensures Holds(st', key) {
      assert Holds(st, key);
      assert Points(st', st'.reserved[key]);
    }
  }

  lemma InsertKeeps(st: Store, s: Session)
    requires StoreInv(st) && s.id !in st.sessions && SessionInv(s) && s.jobs == []
    ensures StoreInv(st.(sessions := st.sessions[s.id := s]))
    ensures |st.sessions[s.id := s]| == |st.sessions| + 1
  {
    InsertAgrees(st, s);
    OneSessionSound(st.sessions, s);
    assert st.sessions[s.id := s].Keys == st.sessions.Keys + {s.id};
  }

  function NewJob(s: Session, agent: string, profile: Profile, expiresAt: Time, jobId: string, nonce: string, now: Time): Job {
    Job(jobId, Binding(s.id, agent, nonce, s.stableId, s.generation, s.fingerprint), profile, now,
        if expiresAt == 0 then s.expiresAt else expiresAt, Pending)
  }

  function RegisterError(st: Store, id: string, agent: string, expiresAt: Time, jobId: string, nonce: string, now: Time): Option<Error> {
    if id !in st.sessions then Some(UnknownSession)
    else
      var s := st.sessions[id];
      var deadline := if expiresAt == 0 then s.expiresAt else expiresAt;
      if ActiveError(s.state).Some? then ActiveError(s.state)
      else if agent !in s.agents then Some(InvalidRequest)
      else if exists k :: 0 <= k < |s.jobs| && s.jobs[k].binding.agent == agent then Some(DuplicateJob)
      else if !IsToken(jobId) || !IsToken(nonce) || jobId in st.jobs || NonceKey(agent, nonce) in st.reserved then Some(InvalidRequest)
      else if deadline <= now || deadline > s.expiresAt then Some(InvalidRequest)
      else None
  }

  function Registered(st: Store, id: string, j: Job, now: Time): Store
    requires id in st.sessions
  {
    var t := st.sessions[id].(jobs := st.sessions[id].jobs + [j]);
    Added(st, t, j).(sessions := st.sessions[id := Derived(t, now)])
  }

  predicate Fits(s: Session, j: Job) {
    && j.state.Pending? && j.binding.session == s.id && j.binding.agent in s.agents && j.binding.stableId == s.stableId
    && j.binding.generation == s.generation && j.binding.fingerprint == s.fingerprint && j.expiresAt <= s.expiresAt
    && forall k :: 0 <= k < |s.jobs| ==> s.jobs[k].binding.agent != j.binding.agent
  }

  lemma FreshJob(st: Store, id: string, jobId: string)
    requires Agree(st) && id in st.sessions && jobId !in st.jobs
    ensures forall k :: 0 <= k < |st.sessions[id].jobs| ==> st.sessions[id].jobs[k].id != jobId
  {
    var s := st.sessions[id];
    forall k | 0 <= k < |s.jobs| ensures s.jobs[k].id != jobId {
      assert At(st, Ref(id, k)) && Indexed(st, Ref(id, k));
    }
  }

  lemma RegisterAgrees(st: Store, id: string, j: Job, now: Time)
    requires Agree(st) && id in st.sessions && st.sessions[id].id == id && j.id !in st.jobs && Key(j) !in st.reserved && j.state.Pending?
    requires var t := st.sessions[id].(jobs := st.sessions[id].jobs + [j]);
             SameJobs(t.jobs, Derived(t, now).jobs)
    ensures Agree(Registered(st, id, j, now))
  {
    var t := st.sessions[id].(jobs := st.sessions[id].jobs + [j]);
    AddKeepsAgreement(st, t, j);
    SameJobsKeepAgreement(Added(st, t, j), Registered(st, id, j, now));
  }

  lemma RegisterKeeps(st: Store, id: string, j: Job, now: Time)
    requires StoreInv(st) && id in st.sessions && !st.sessions[id].state.Terminal()
    requires j.id !in st.jobs && Key(j) !in st.reserved && Fits(st.sessions[id], j)
    ensures StoreInv(Registered(st, id, j, now))
    ensures OnlyAdvances(st.sessions, Registered(st, id, j, now).sessions)
    ensures Registered(st, id, j, now).sessions.Keys == st.sessions.Keys && |Registered(st, id, j, now).sessions| == |st.sessions|
  {
    assert Sound(st.sessions, id);
    FreshJob(st, id, j.id);
    AddJobIsInv(st.sessions[id], j, now);
    RegisterAgrees(st, id, j, now);
    OneSessionSound(st.sessions, Registered(st, id, j, now).sessions[id]);
    assert Registered(st, id, j, now).sessions.Keys == st.sessions.Keys;
  }

  function TransitionError(st: Store, jobId: string, next: JobState): Option<Error>
  {
    if jobId !in st.jobs || !At(st, st.jobs[jobId]) then Some(UnknownJob)
    else
      var s, state := st.sessions[st.jobs[jobId].session], JobAt(st, st.jobs[jobId]).state;
      if ActiveError(s.state).Some? then ActiveError(s.state)
      else if state.Pending? || (next.Running? && state.Dispatched?) then None
      else Some(InvalidTransition)
  }

  function Moved(st: Store, jobId: string, next: JobState, now: Time): Store
    requires jobId in st.jobs && At(st, st.jobs[jobId])
  {
    var ref := st.jobs[jobId];
    var s := st.sessions[ref.session];
    st.(sessions := st.sessions[ref.session := Derived(s.(jobs := s.jobs[ref.index := s.jobs[ref.index].(state := next)]), now)])
  }

  lemma MoveKeeps(st: Store, jobId: string, next: JobState, now: Time)
    requires StoreInv(st) && jobId in st.jobs && At(st, st.jobs[jobId]) && !next.Completed?
    requires !st.sessions[st.jobs[jobId].session].state.Terminal() && !JobAt(st, st.jobs[jobId]).state.Completed?
    ensures StoreInv(Moved(st, jobId, next, now))
    ensures OnlyAdvances(st.sessions, Moved(st, jobId, next, now).sessions)
    ensures Moved(st, jobId, next, now).sessions.Keys == st.sessions.Keys && |Moved(st, jobId, next, now).sessions| == |st.sessions|
  {
    var ref := st.jobs[jobId];
    assert Sound(st.sessions, ref.session);
    MoveIsInv(st.sessions[ref.session], ref.index, next, now);
    OneSessionSound(st.sessions, Moved(st, jobId, next, now).sessions[ref.session]);
    SameJobsKeepAgreement(st, Moved(st, jobId, next, now));
    assert Moved(st, jobId, next, now).sessions.Keys == st.sessions.Keys;
  }

  function AcceptError(st: Store, o: Observation, now: Time, cfg: Config): Option<Error>
  {
    if o.job !in st.jobs || !At(st, st.jobs[o.job]) then Some(UnknownJob)
    else
      AnswerError(st.sessions[st.jobs[o.job].session], JobAt(st, st.jobs[o.job]),
                  NonceKey(o.binding.agent, o.binding.nonce) in st.used, o, now, cfg)
  }

  predicate HoldsObservation(sessions: map<string, Session>, o: Observation) {
    exists id :: id in sessions && o in sessions[id].observations
  }

  /** In time for the manager and within the window of its job, signed, with a fresh nonce, and bound
      in every field to a job that is not completed, of a session that is still open. */
  ghost predicate Acceptable(st: Store, o: Observation, now: Time, cfg: Config) {
    exists r: Ref :: At(st, r) && AcceptableFor(st.sessions[r.session], JobAt(st, r), o, now, cfg)
                     && NonceKey(o.binding.agent, o.binding.nonce) !in st.used
  }

  predicate AcceptableFor(s: Session, j: Job, o: Observation, now: Time, cfg: Config) {
    && o.signed && o.job == j.id && o.binding == j.binding && o.profile == j.profile.id
    && !j.state.Completed? && !s.state.Done? && !s.state.Partial? && !s.state.TimedOut? && !s.state.Stopped?
    && o.checkedAt <= now + cfg.skew && now <= o.checkedAt + cfg.maxAge
    && j.createdAt <= o.checkedAt + cfg.skew && o.checkedAt <= j.expiresAt + cfg.skew
    && (o.alternative.Some? ==> j.profile.alternative != "" && o.alternative.value == j.profile.alternative)
    && (o.server == "" || o.server == j.profile.server) && j.binding.generation == s.generation
  }

  lemma AcceptedExactly(st: Store, o: Observation, now: Time, cfg: Config)
    requires StoreInv(st)
    ensures AcceptError(st, o, now, cfg).None? <==> Acceptable(st, o, now, cfg)
  {
    forall r: Ref | At(st, r) && JobAt(st, r).id == o.job ensures o.job in st.jobs && st.jobs[o.job] == r {
      assert Indexed(st, r);
    }
    if o.job in st.jobs && At(st, st.jobs[o.job]) {
      var r := st.jobs[o.job];
      assert Points(st, o.job);
      AnsweredExactly(st.sessions[r.session], JobAt(st, r), NonceKey(o.binding.agent, o.binding.nonce) in st.used, o, now, cfg);
    }
  }

  lemma AnsweredExactly(s: Session, j: Job, used: bool, o: Observation, now: Time, cfg: Config)
    requires o.job == j.id
    ensures AnswerError(s, j, used, o, now, cfg).None? <==> AcceptableFor(s, j, o, now, cfg) && !used
  {
  }

  /** A job is registered exactly for an agent that was asked and has none, in an open session, for a
      deadline that is to come and within the session's. */
  lemma RegisteredExactly(st: Store, id: string, agent: string, expiresAt: Time, jobId: string, nonce: string, now: Time)
    ensures RegisterError(st, id, agent, expiresAt, jobId, nonce, now).None? <==>
              && id in st.sessions && !st.sessions[id].state.Terminal() && agent in st.sessions[id].agents
              && (forall k :: 0 <= k < |st.sessions[id].jobs| ==> st.sessions[id].jobs[k].binding.agent != agent)
              && IsToken(jobId) && IsToken(nonce) && jobId !in st.jobs && NonceKey(agent, nonce) !in st.reserved
              && now < (if expiresAt == 0 then st.sessions[id].expiresAt else expiresAt) <= st.sessions[id].expiresAt
  {
  }

  function Rank(state: JobState): nat {
    match state
    case Pending => 0
    case Dispatched => 1
    case Running => 2
    case _ => 3
  }

  /** A job moves exactly when it is known, its session is open, and it moves forward; so none that has
      ended ever moves. */
  lemma MovesForward(st: Store, jobId: string, next: JobState)
    requires next.Dispatched? || next.Running?
    ensures TransitionError(st, jobId, next).None? <==>
              && jobId in st.jobs && At(st, st.jobs[jobId]) && !st.sessions[st.jobs[jobId].session].state.Terminal()
              && Rank(JobAt(st, st.jobs[jobId]).state) < Rank(next)
  {
  }

  function Accepted(st: Store, o: Observation, now: Time): Store
    requires o.job in st.jobs && At(st, st.jobs[o.job])
  {
    var ref := st.jobs[o.job];
    var s := st.sessions[ref.session];
    var t := s.(observations := s.observations + [o], jobs := s.jobs[ref.index := s.jobs[ref.index].(state := Completed)]);
    st.(sessions := st.sessions[ref.session := Derived(t, now)], used := st.used + {NonceKey(o.binding.agent, o.binding.nonce)})
  }

  lemma AcceptAgrees(st: Store, o: Observation, now: Time)
    requires Agree(st) && o.job in st.jobs && At(st, st.jobs[o.job]) && Binds(o, JobAt(st, st.jobs[o.job]))
    requires var ref := st.jobs[o.job];
             var s := st.sessions[ref.session];
             var t := s.(observations := s.observations + [o], jobs := s.jobs[ref.index := s.jobs[ref.index].(state := Completed)]);
             s.id == ref.session && SameJobs(t.jobs, Derived(t, now).jobs)
    ensures Agree(Accepted(st, o, now))
  {
    var ref := st.jobs[o.job];
    var s := st.sessions[ref.session];
    var t := s.(observations := s.observations + [o], jobs := s.jobs[ref.index := s.jobs[ref.index].(state := Completed)]);
    AnswerKeepsAgreement(st, t, ref.index);
    SameJobsKeepAgreement(Used(st, t, t.jobs[ref.index]), Accepted(st, o, now));
  }

  lemma AcceptKeeps(st: Store, o: Observation, now: Time, cfg: Config)
    requires StoreInv(st) && o.job in st.jobs && AcceptError(st, o, now, cfg).None?
    ensures StoreInv(Accepted(st, o, now))
    ensures OnlyAdvances(st.sessions, Accepted(st, o, now).sessions)
    ensures Accepted(st, o, now).sessions.Keys == st.sessions.Keys && |Accepted(st, o, now).sessions| == |st.sessions|
  {
    var ref := st.jobs[o.job];
    assert Points(st, o.job);
    assert Sound(st.sessions, ref.session);
    assert Binds(o, JobAt(st, ref));
    AnswerIsInv(st.sessions[ref.session], ref.index, o, now);
    AcceptAgrees(st, o, now);
    OneSessionSound(st.sessions, Accepted(st, o, now).sessions[ref.session]);
    assert Accepted(st, o, now).sessions.Keys == st.sessions.Keys;
  }

  lemma CancelKeeps(st: Store, id: string)
    requires StoreInv(st) && id in st.sessions && !st.sessions[id].state.Terminal()
    ensures var s := st.sessions[id];
            var st' := st.(sessions := st.sessions[id := s.(jobs := CancelledOpen(s.jobs), state := Stopped)]);
            StoreInv(st') && OnlyAdvances(st.sessions, st'.sessions) && |st'.sessions| == |st.sessions|
  {
    var s := st.sessions[id];
    var st' := st.(sessions := st.sessions[id := s.(jobs := CancelledOpen(s.jobs), state := Stopped)]);
    assert Sound(st.sessions, id);
    CancelIsInv(s);
    OneSessionSound(st.sessions, st'.sessions[id]);
    SameJobsKeepAgreement(st, st');
    assert st'.sessions.Keys == st.sessions.Keys;
  }
}
