/**
  Diagnostic sessions as values: jobs, observations, the derived session state, and the agreement
  of the four maps the session manager keeps.
*/
module SessionSpec {
  import opened Wrappers

  type Time = int

  datatype JobState = Pending | Dispatched | Running | Completed | Expired | Cancelled {
    predicate Terminal() {
      Completed? || Expired? || Cancelled?
    }
  }

  /** What a job and its observation must agree on. */
  datatype Binding = Binding(session: string, agent: string, nonce: string, stableId: string, generation: nat, fingerprint: string)

  datatype Profile = Profile(id: string, alternative: string, server: string)

  datatype Job = Job(id: string, binding: Binding, profile: Profile, createdAt: Time, expiresAt: Time, state: JobState)

  /** A well-formed signed observation; "" for a server or an alternative it does not name. */
  datatype Observation = Observation(
    job: string, binding: Binding, profile: string, alternative: Option<string>, server: string, checkedAt: Time, signed: bool)

  datatype SessionState = Requested | Dispatching | InProgress | Done | Partial | TimedOut | Stopped {
    predicate Terminal() {
      Done? || Partial? || TimedOut? || Stopped?
    }
  }

  datatype Session = Session(
    id: string,
    stableId: string,
    generation: nat,
    fingerprint: string,
    agents: seq<string>,
    createdAt: Time,
    expiresAt: Time,
    jobs: seq<Job>,
    observations: seq<Observation>,
    state: SessionState)

  // ----- counting jobs -----

  function CompletedCount(jobs: seq<Job>): (n: nat)
    ensures n <= |jobs|
  {
    if jobs == [] then 0
    else
      var before := CompletedCount(jobs[..|jobs| - 1]);
      if jobs[|jobs| - 1].state.Completed? then before + 1 else before
  }

  function TerminalCount(jobs: seq<Job>): (n: nat)
    ensures n <= |jobs|
  {
    if jobs == [] then 0
    else
      var before := TerminalCount(jobs[..|jobs| - 1]);
      if jobs[|jobs| - 1].state.Terminal() then before + 1 else before
  }

  lemma {:induction false} CompletedMeans(jobs: seq<Job>)
    ensures CompletedCount(jobs) == |jobs| <==> forall k :: 0 <= k < |jobs| ==> jobs[k].state.Completed?
    ensures CompletedCount(jobs) > 0 <==> exists k :: 0 <= k < |jobs| && jobs[k].state.Completed?
    decreases |jobs|
  {
    if jobs != [] {
      CompletedMeans(jobs[..|jobs| - 1]);
      assert forall k :: 0 <= k < |jobs| - 1 ==> jobs[..|jobs| - 1][k] == jobs[k];
    }
  }

  lemma {:induction false} TerminalMeans(jobs: seq<Job>)
    ensures TerminalCount(jobs) == |jobs| <==> forall k :: 0 <= k < |jobs| ==> jobs[k].state.Terminal()
    decreases |jobs|
  {
    if jobs != [] {
      TerminalMeans(jobs[..|jobs| - 1]);
      assert forall k :: 0 <= k < |jobs| - 1 ==> jobs[..|jobs| - 1][k] == jobs[k];
    }
  }

  lemma CountOneMore(jobs: seq<Job>, k: nat)
    requires k < |jobs|
    ensures CompletedCount(jobs[..k + 1]) == CompletedCount(jobs[..k]) + if jobs[k].state.Completed? then 1 else 0
    ensures TerminalCount(jobs[..k + 1]) == TerminalCount(jobs[..k]) + if jobs[k].state.Terminal() then 1 else 0
  {
    assert jobs[..k + 1][..k] == jobs[..k];
  }

  predicate SomeRunning(jobs: seq<Job>) {
    exists k :: 0 <= k < |jobs| && jobs[k].state.Running?
  }

  // ----- steps of one session -----

  function ExpiredOpen(jobs: seq<Job>): (r: seq<Job>)
    ensures |r| == |jobs|
    ensures forall k :: 0 <= k < |jobs| ==> r[k] == if jobs[k].state.Terminal() then jobs[k] else jobs[k].(state := Expired)
  {
    seq(|jobs|, k requires 0 <= k < |jobs| => if jobs[k].state.Terminal() then jobs[k] else jobs[k].(state := Expired))
  }

  function CancelledOpen(jobs: seq<Job>): (r: seq<Job>)
    ensures |r| == |jobs|
    ensures forall k :: 0 <= k < |jobs| ==> r[k] == if jobs[k].state.Terminal() then jobs[k] else jobs[k].(state := Cancelled)
  {
    seq(|jobs|, k requires 0 <= k < |jobs| => if jobs[k].state.Terminal() then jobs[k] else jobs[k].(state := Cancelled))
  }

  function OverdueExpired(jobs: seq<Job>, now: Time): (r: seq<Job>)
    ensures |r| == |jobs|
    ensures forall k :: 0 <= k < |jobs| ==>
              r[k] == if !jobs[k].state.Terminal() && jobs[k].expiresAt <= now then jobs[k].(state := Expired) else jobs[k]
  {
    seq(|jobs|, k requires 0 <= k < |jobs| =>
      if !jobs[k].state.Terminal() && jobs[k].expiresAt <= now then jobs[k].(state := Expired) else jobs[k])
  }

  function OpenState(jobs: seq<Job>): SessionState {
    if SomeRunning(jobs) || CompletedCount(jobs) > 0 then InProgress
    else if |jobs| > 0 then Dispatching else Requested
  }

  function Derived(s: Session, now: Time): Session {
    if s.state.Stopped? then s
    else if |s.agents| > 0 && CompletedCount(s.jobs) == |s.agents| then s.(state := Done)
    else if s.expiresAt <= now || (|s.jobs| == |s.agents| && TerminalCount(s.jobs) == |s.jobs|) then
      s.(jobs := ExpiredOpen(s.jobs), state := if CompletedCount(s.jobs) > 0 then Partial else TimedOut)
    else s.(state := OpenState(s.jobs))
  }

  function Overdue(s: Session, now: Time): Session {
    if s.state.Terminal() then s else Derived(s.(jobs := OverdueExpired(s.jobs, now)), now)
  }

  // ----- the invariant of one session -----

  /** Identifiers are short strings of letters, digits and -_.: */
  predicate IsToken(s: string) {
    0 < |s| <= 128 && forall i :: 0 <= i < |s| ==>
      'a' <= s[i] <= 'z' || 'A' <= s[i] <= 'Z' || '0' <= s[i] <= '9' || s[i] in "-_.:"
  }

  predicate AreTokens(a: seq<string>) {
    forall i {:trigger IsToken(a[i])} :: 0 <= i < |a| ==> IsToken(a[i])
  }

  predicate Distinct(a: seq<string>) {
    forall i, j :: 0 <= i < j < |a| ==> a[i] != a[j]
  }

  predicate Binds(o: Observation, j: Job) {
    && o.job == j.id && o.binding == j.binding && o.profile == j.profile.id
    && (o.alternative.Some? ==> j.profile.alternative != "" && o.alternative.value == j.profile.alternative)
    && (o.server != "" ==> o.server == j.profile.server)
  }

  /** Jobs belong to the session, one at most for each requested agent. */
  predicate JobsInv(s: Session) {
    && s.agents != [] && Distinct(s.agents) && AreTokens(s.agents)
    && (forall k :: 0 <= k < |s.jobs| ==>
          var b := s.jobs[k].binding;
          && b.session == s.id && b.agent in s.agents && b.stableId == s.stableId
          && b.generation == s.generation && b.fingerprint == s.fingerprint
          && s.jobs[k].expiresAt <= s.expiresAt)
    && (forall i, k :: 0 <= i < k < |s.jobs| ==> s.jobs[i].binding.agent != s.jobs[k].binding.agent && s.jobs[i].id != s.jobs[k].id)
  }

  /** The job this observation answers. */
  predicate Answers(s: Session, i: nat)
    requires i < |s.observations|
  {
    s.observations[i].signed && exists k :: 0 <= k < |s.jobs| && s.jobs[k].state.Completed? && Binds(s.observations[i], s.jobs[k])
  }

  predicate Answered(s: Session, k: nat)
    requires k < |s.jobs|
  {
    exists i :: 0 <= i < |s.observations| && Binds(s.observations[i], s.jobs[k])
  }

  /** Exactly one observation for each completed job, signed and bound to it in every field. */
  predicate AnswersInv(s: Session) {
    && (forall i {:trigger Answers(s, i)} :: 0 <= i < |s.observations| ==> Answers(s, i))
    && (forall k {:trigger Answered(s, k)} :: 0 <= k < |s.jobs| && s.jobs[k].state.Completed? ==> Answered(s, k))
    && (forall i, j :: 0 <= i < j < |s.observations| ==> s.observations[i].job != s.observations[j].job)
  }

  /** What the state says about the jobs: Done when every requested agent answered, Partial when
      some but not all did, TimedOut when none did; and no terminal session has an open job. */
  predicate StateInv(s: Session) {
    && (s.state.Terminal() ==> forall k :: 0 <= k < |s.jobs| ==> s.jobs[k].state.Terminal())
    && (s.state.Done? <==> CompletedCount(s.jobs) == |s.agents|)
    && (s.state.Partial? ==> CompletedCount(s.jobs) > 0)
    && (s.state.TimedOut? ==> CompletedCount(s.jobs) == 0)
    && (!s.state.Terminal() ==> s.state == OpenState(s.jobs))
  }

  ghost predicate SessionInv(s: Session) {
    JobsInv(s) && AnswersInv(s) && StateInv(s)
  }

  /** The jobs differ in their open or expired states only. */
  predicate SameJobs(a: seq<Job>, b: seq<Job>) {
    && |a| == |b|
    && forall k :: 0 <= k < |a| ==> a[k].(state := b[k].state) == b[k] && (a[k].state.Completed? <==> b[k].state.Completed?)
  }

  lemma {:induction false} SameJobsSameCount(a: seq<Job>, b: seq<Job>)
    requires SameJobs(a, b)
    ensures CompletedCount(a) == CompletedCount(b)
    decreases |a|
  {
    if a == [] {
    } else {
      SameJobsSameCount(a[..|a| - 1], b[..|b| - 1]);
    }
  }

  lemma DistinctFits(a: seq<string>, b: seq<string>)
    requires Distinct(a) && forall i :: 0 <= i < |a| ==> a[i] in b
    ensures |a| <= |b|
  {
    var A, B := set x | x in a, set x | x in b;
    assert A <= B;
    Cardinality(a);
    Smaller(b);
    assert B == A + (B - A);
  }

  lemma {:induction false} Cardinality(a: seq<string>)
    requires Distinct(a)
    ensures |set x | x in a| == |a|
    decreases |a|
  {
    if a != [] {
      var before := a[..|a| - 1];
      Cardinality(before);
      assert (set x | x in a) == (set x | x in before) + {a[|a| - 1]};
    }
  }

  lemma {:induction false} Smaller(b: seq<string>)
    ensures |set x | x in b| <= |b|
    decreases |b|
  {
    if b != [] {
      var before := b[..|b| - 1];
      Smaller(before);
      assert (set x | x in b) == (set x | x in before) + {b[|b| - 1]};
    }
  }

  lemma JobsFit(s: Session)
    requires JobsInv(s)
    ensures |s.jobs| <= |s.agents|
  {
    DistinctFits(seq(|s.jobs|, k requires 0 <= k < |s.jobs| => s.jobs[k].binding.agent), s.agents);
  }

  lemma SameJobsKeepBindings(s: Session, t: Session)
    requires JobsInv(s) && AnswersInv(s) && SameJobs(s.jobs, t.jobs) && t == s.(jobs := t.jobs, state := t.state)
    ensures JobsInv(t) && AnswersInv(t)
  {
    forall i | 0 <= i < |t.observations| ensures Answers(t, i) {
      assert Answers(s, i);
      var k :| 0 <= k < |s.jobs| && s.jobs[k].state.Completed? && Binds(s.observations[i], s.jobs[k]);
      assert Binds(t.observations[i], t.jobs[k]);
    }
    forall k | 0 <= k < |t.jobs| && t.jobs[k].state.Completed? ensures Answered(t, k) {
      assert Answered(s, k);
      var i :| 0 <= i < |s.observations| && Binds(s.observations[i], s.jobs[k]);
      assert Binds(t.observations[i], t.jobs[k]);
    }
  }

  lemma DerivedState(s: Session, now: Time)
    requires 0 < |s.agents| && |s.jobs| <= |s.agents| && !s.state.Terminal()
    ensures SameJobs(s.jobs, Derived(s, now).jobs) && StateInv(Derived(s, now))
    ensures Derived(s, now) == s.(jobs := Derived(s, now).jobs, state := Derived(s, now).state)
  {
    SameJobsSameCount(s.jobs, Derived(s, now).jobs);
    CompletedMeans(Derived(s, now).jobs);
    TerminalMeans(s.jobs);
  }

  lemma DerivedIsInv(s: Session, now: Time)
    requires JobsInv(s) && AnswersInv(s) && !s.state.Terminal()
    ensures SessionInv(Derived(s, now)) && SameJobs(s.jobs, Derived(s, now).jobs)
    ensures Derived(s, now) == s.(jobs := Derived(s, now).jobs, state := Derived(s, now).state)
  {
    JobsFit(s);
    DerivedState(s, now);
    SameJobsKeepBindings(s, Derived(s, now));
  }

  lemma OverdueIsInv(s: Session, now: Time)
    requires SessionInv(s)
    ensures SessionInv(Overdue(s, now)) && SameJobs(s.jobs, Overdue(s, now).jobs)
    ensures s.state.Terminal() ==> Overdue(s, now) == s
    ensures Overdue(s, now) == s.(jobs := Overdue(s, now).jobs, state := Overdue(s, now).state)
    ensures !Overdue(s, now).state.Terminal() ==> now < s.expiresAt
  {
    if !s.state.Terminal() {
      SameJobsKeepBindings(s, s.(jobs := OverdueExpired(s.jobs, now)));
      DerivedIsInv(s.(jobs := OverdueExpired(s.jobs, now)), now);
    }
  }

  lemma CancelIsInv(s: Session)
    requires SessionInv(s) && !s.state.Terminal()
    ensures SessionInv(s.(jobs := CancelledOpen(s.jobs), state := Stopped)) && SameJobs(s.jobs, CancelledOpen(s.jobs))
  {
    var t := s.(jobs := CancelledOpen(s.jobs), state := Stopped);
    SameJobsSameCount(s.jobs, t.jobs);
    SameJobsKeepBindings(s, t);
  }

  lemma MoveIsInv(s: Session, k: nat, next: JobState, now: Time)
    requires SessionInv(s) && !s.state.Terminal() && k < |s.jobs| && !s.jobs[k].state.Completed? && !next.Completed?
    ensures var t := s.(jobs := s.jobs[k := s.jobs[k].(state := next)]);
            SessionInv(Derived(t, now)) && SameJobs(s.jobs, Derived(t, now).jobs) && Derived(t, now).id == s.id
  {
    var t := s.(jobs := s.jobs[k := s.jobs[k].(state := next)]);
    SameJobsKeepBindings(s, t);
    DerivedIsInv(t, now);
  }

  lemma AddJobIsInv(s: Session, job: Job, now: Time)
    requires SessionInv(s) && !s.state.Terminal() && job.state.Pending?
    requires job.binding.session == s.id && job.binding.agent in s.agents && job.binding.stableId == s.stableId
    requires job.binding.generation == s.generation && job.binding.fingerprint == s.fingerprint && job.expiresAt <= s.expiresAt
    requires forall k :: 0 <= k < |s.jobs| ==> s.jobs[k].binding.agent != job.binding.agent && s.jobs[k].id != job.id
    ensures var t := s.(jobs := s.jobs + [job]);
            SessionInv(Derived(t, now)) && SameJobs(t.jobs, Derived(t, now).jobs) && Derived(t, now).id == s.id
  {
    var t := s.(jobs := s.jobs + [job]);
    forall i | 0 <= i < |t.observations| ensures Answers(t, i) {
      assert Answers(s, i);
      var k :| 0 <= k < |s.jobs| && s.jobs[k].state.Completed? && Binds(s.observations[i], s.jobs[k]);
      assert t.jobs[k] == s.jobs[k];
    }
    forall k | 0 <= k < |t.jobs| && t.jobs[k].state.Completed? ensures Answered(t, k) {
      assert Answered(s, k);
      var i :| 0 <= i < |s.observations| && Binds(s.observations[i], s.jobs[k]);
      assert Binds(t.observations[i], t.jobs[k]);
    }
    assert JobsInv(t);
    DerivedIsInv(t, now);
  }

  lemma AnswerIsInv(s: Session, k: nat, o: Observation, now: Time)
    requires SessionInv(s) && !s.state.Terminal() && k < |s.jobs| && !s.jobs[k].state.Completed? && Binds(o, s.jobs[k]) && o.signed
    ensures var t := s.(jobs := s.jobs[k := s.jobs[k].(state := Completed)], observations := s.observations + [o]);
            SessionInv(Derived(t, now)) && SameJobs(t.jobs, Derived(t, now).jobs) && Derived(t, now).id == s.id
  {
    var t := s.(jobs := s.jobs[k := s.jobs[k].(state := Completed)], observations := s.observations + [o]);
    forall i | 0 <= i < |t.observations|
      ensures Answers(t, i)
      ensures i < |s.observations| ==> t.observations[i].job != o.job
    {
      if i < |s.observations| {
        assert Answers(s, i);
        var l :| 0 <= l < |s.jobs| && s.jobs[l].state.Completed? && Binds(s.observations[i], s.jobs[l]);
        assert t.jobs[l] == s.jobs[l] && t.observations[i] == s.observations[i];
      } else {
        assert Binds(t.observations[i], t.jobs[k]);
      }
    }
    forall l | 0 <= l < |t.jobs| && t.jobs[l].state.Completed? ensures Answered(t, l) {
      if l == k {
        assert Binds(t.observations[|s.observations|], t.jobs[k]);
      } else {
        assert Answered(s, l);
        var i :| 0 <= i < |s.observations| && Binds(s.observations[i], s.jobs[l]);
        assert Binds(t.observations[i], t.jobs[l]);
      }
    }
    assert JobsInv(t);
    DerivedIsInv(t, now);
  }

  // ----- what the state of a session means -----

  predicate Heard(s: Session, a: string) {
    exists i :: 0 <= i < |s.observations| && s.observations[i].binding.agent == a
  }

  /** The job an observation answers. */
  lemma AnsweredJob(s: Session, i: nat) returns (k: nat)
    requires SessionInv(s) && i < |s.observations|
    ensures s.observations[i].signed && k < |s.jobs| && s.jobs[k].state.Completed? && Binds(s.observations[i], s.jobs[k])
  {
    assert Answers(s, i);
    k :| 0 <= k < |s.jobs| && s.jobs[k].state.Completed? && Binds(s.observations[i], s.jobs[k]);
  }

  lemma OneAnswerPerAgent(s: Session, i: nat, j: nat)
    requires SessionInv(s) && i < j < |s.observations|
    ensures s.observations[i].binding.agent != s.observations[j].binding.agent
  {
    var k := AnsweredJob(s, i);
    var l := AnsweredJob(s, j);
    assert s.observations[i].job != s.observations[j].job;
    assert s.jobs[k].id != s.jobs[l].id;
    assert k < l || l < k;
  }

  function JobAgents(s: Session): (names: seq<string>)
    ensures |names| == |s.jobs| && forall k :: 0 <= k < |names| ==> names[k] == s.jobs[k].binding.agent
  {
    seq(|s.jobs|, k requires 0 <= k < |s.jobs| => s.jobs[k].binding.agent)
  }

  /** With a job for each agent, every agent has one. */
  lemma JobOf(s: Session, a: string)
    requires JobsInv(s) && |s.jobs| == |s.agents| && a in s.agents
    ensures exists k :: 0 <= k < |s.jobs| && s.jobs[k].binding.agent == a
  {
    if a !in JobAgents(s) {
      DistinctFits(JobAgents(s) + [a], s.agents);
    }
  }

  lemma DoneIsHeard(s: Session, a: string)
    requires SessionInv(s) && s.state.Done? && a in s.agents
    ensures Heard(s, a)
  {
    JobsFit(s);
    CompletedMeans(s.jobs);
    JobOf(s, a);
    var k :| 0 <= k < |s.jobs| && s.jobs[k].binding.agent == a;
    assert Answered(s, k);
    var i :| 0 <= i < |s.observations| && Binds(s.observations[i], s.jobs[k]);
  }

  lemma HeardIsCompleted(s: Session, a: string)
    requires SessionInv(s) && Heard(s, a)
    ensures exists k :: 0 <= k < |s.jobs| && s.jobs[k].binding.agent == a && s.jobs[k].state.Completed?
  {
    var i :| 0 <= i < |s.observations| && s.observations[i].binding.agent == a;
    var k := AnsweredJob(s, i);
  }

  lemma AllHeardIsDone(s: Session)
    requires SessionInv(s) && forall a :: a in s.agents ==> Heard(s, a)
    ensures s.state.Done?
  {
    forall n | 0 <= n < |s.agents| ensures s.agents[n] in JobAgents(s) {
      HeardIsCompleted(s, s.agents[n]);
    }
    DistinctFits(s.agents, JobAgents(s));
    JobsFit(s);
    CompletedMeans(s.jobs);
    forall k | 0 <= k < |s.jobs| ensures s.jobs[k].state.Completed? {
      var a := s.jobs[k].binding.agent;
      assert a in s.agents;
      HeardIsCompleted(s, a);
      var l :| 0 <= l < |s.jobs| && s.jobs[l].binding.agent == a && s.jobs[l].state.Completed?;
      assert !(l < k) && !(k < l);
    }
  }

  /** A session is Done if and only if every requested agent answered, and no agent answers twice. */
  lemma DoneMeansEveryAgentAnswered(s: Session)
    requires SessionInv(s)
    ensures s.state.Done? <==> forall a :: a in s.agents ==> Heard(s, a)
    ensures forall i, j :: 0 <= i < j < |s.observations| ==> s.observations[i].binding.agent != s.observations[j].binding.agent
  {
    forall i, j | 0 <= i < j < |s.observations|
      ensures s.observations[i].binding.agent != s.observations[j].binding.agent
    {
      OneAnswerPerAgent(s, i, j);
    }
    if s.state.Done? {
      forall a | a in s.agents ensures Heard(s, a) {
        DoneIsHeard(s, a);
      }
    } else if forall a :: a in s.agents ==> Heard(s, a) {
      AllHeardIsDone(s);
    }
  }

  /** Among the sessions that ran to their end, Partial ones have an answer but not from every
      agent, and TimedOut ones have none. */
  lemma PartialAndTimedOut(s: Session)
    requires SessionInv(s)
    ensures s.state.Partial? ==> s.observations != [] && exists a :: a in s.agents && !Heard(s, a)
    ensures s.state.TimedOut? ==> s.observations == []
  {
    CompletedMeans(s.jobs);
    if s.state.Partial? {
      var k :| 0 <= k < |s.jobs| && s.jobs[k].state.Completed?;
      assert Answered(s, k);
      DoneMeansEveryAgentAnswered(s);
    }
    if s.state.TimedOut? && s.observations != [] {
      var k := AnsweredJob(s, 0);
    }
  }
}
