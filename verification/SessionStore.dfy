/** The agreement of the session manager's four maps, and what each change to them keeps. */
module SessionStore {
  import opened Wrappers
  import opened SessionSpec

  /** Where a job is: its session and its place there. */
  datatype Ref = Ref(session: string, index: nat)

  datatype Store = Store(sessions: map<string, Session>, jobs: map<string, Ref>, reserved: map<string, string>, used: set<string>)

  function NonceKey(agent: string, nonce: string): string {
    agent + "\0" + nonce
  }

  function Key(j: Job): string {
    NonceKey(j.binding.agent, j.binding.nonce)
  }

  /** One key stands for one agent and one nonce. */
  lemma KeyIsInjective(a: string, n: string, b: string, m: string)
    requires IsToken(a) && IsToken(b) && NonceKey(a, n) == NonceKey(b, m)
    ensures a == b && n == m
  {
    var k := NonceKey(a, n);
    assert k[|a|] == '\0' && k[|b|] == '\0';
    forall i | 0 <= i < |a| ensures k[i] != '\0' {
      assert k[i] == a[i];
    }
    forall i | 0 <= i < |b| ensures k[i] != '\0' {
      assert k[i] == b[i];
    }
    assert a == k[..|a|] == b;
    assert n == k[|a| + 1..] == m;
  }

  predicate At(st: Store, r: Ref) {
    r.session in st.sessions && r.index < |st.sessions[r.session].jobs|
  }

  function JobAt(st: Store, r: Ref): Job
    requires At(st, r)
  {
    st.sessions[r.session].jobs[r.index]
  }

  /** A job of a live session is in the index and holds its nonce. */
  predicate Indexed(st: Store, r: Ref)
    requires At(st, r)
  {
    var j := JobAt(st, r);
    && j.id in st.jobs && st.jobs[j.id] == r
    && Key(j) in st.reserved && st.reserved[Key(j)] == j.id
  }

  predicate Points(st: Store, id: string)
    requires id in st.jobs
  {
    At(st, st.jobs[id]) && JobAt(st, st.jobs[id]).id == id
  }

  predicate Holds(st: Store, key: string)
    requires key in st.reserved
  {
    && st.reserved[key] in st.jobs && Points(st, st.reserved[key])
    && Key(JobAt(st, st.jobs[st.reserved[key]])) == key
    && (key in st.used <==> JobAt(st, st.jobs[st.reserved[key]]).state.Completed?)
  }

  /** The index is a bijection onto the jobs of live sessions, the reserved nonces are those jobs'
      nonces, and the used ones are those of the completed jobs. */
  ghost predicate Agree(st: Store) {
    && (forall r: Ref {:trigger At(st, r)} :: At(st, r) ==> Indexed(st, r))
    && (forall id {:trigger Points(st, id)} :: id in st.jobs ==> Points(st, id))
    && (forall key {:trigger Holds(st, key)} :: key in st.reserved ==> Holds(st, key))
    && (forall key :: key in st.used ==> key in st.reserved)
  }

  /** Changing open job states, in any sessions at once, leaves the index and the nonces right. */
  lemma SameJobsKeepAgreement(st: Store, st': Store)
    requires Agree(st) && st' == st.(sessions := st'.sessions) && st'.sessions.Keys == st.sessions.Keys
    requires forall id :: id in st.sessions ==> SameJobs(st.sessions[id].jobs, st'.sessions[id].jobs)
    ensures Agree(st')
  {
    forall r: Ref | At(st', r) ensures Indexed(st', r) {
      assert At(st, r) && Indexed(st, r);
    }
    forall id | id in st'.jobs ensures Points(st', id) {
      assert Points(st, id);
    }
    forall key | key in st'.reserved ensures Holds(st', key) {
      assert Holds(st, key);
      assert Points(st', st'.reserved[key]);
    }
  }

  function Added(st: Store, t: Session, j: Job): Store
    requires |t.jobs| > 0
  {
    Store(st.sessions[t.id := t], st.jobs[j.id := Ref(t.id, |t.jobs| - 1)], st.reserved[Key(j) := j.id], st.used)
  }

  lemma AddKeepsAgreement(st: Store, t: Session, j: Job)
    requires Agree(st) && t.id in st.sessions && t.jobs == st.sessions[t.id].jobs + [j]
    requires j.id !in st.jobs && Key(j) !in st.reserved && !j.state.Completed?
    ensures Agree(Added(st, t, j))
  {
    var st' := Added(st, t, j);
    var last := Ref(t.id, |t.jobs| - 1);
    assert At(st', last) && JobAt(st', last) == j;
    forall r: Ref | At(st', r) ensures Indexed(st', r) {
      if r != last {
        assert At(st, r) && Indexed(st, r) && JobAt(st', r) == JobAt(st, r);
      }
    }
    forall id | id in st'.jobs ensures Points(st', id) {
      if id != j.id {
        assert Points(st, id) && JobAt(st', st.jobs[id]) == JobAt(st, st.jobs[id]);
      }
    }
    forall key | key in st'.reserved ensures Holds(st', key) {
      if key != Key(j) {
        assert Holds(st, key);
        assert Points(st', st.reserved[key]);
      } else {
        assert Points(st', j.id);
      }
    }
  }

  function Used(st: Store, t: Session, j: Job): Store {
    Store(st.sessions[t.id := t], st.jobs, st.reserved, st.used + {Key(j)})
  }

  lemma AnswerKeepsAgreement(st: Store, t: Session, k: nat)
    requires Agree(st) && t.id in st.sessions && k < |st.sessions[t.id].jobs|
    requires t.jobs == st.sessions[t.id].jobs[k := st.sessions[t.id].jobs[k].(state := Completed)]
    ensures Agree(Used(st, t, t.jobs[k]))
  {
    var st' := Used(st, t, t.jobs[k]);
    var done := Ref(t.id, k);
    assert At(st, done) && Indexed(st, done);
    forall r: Ref | At(st', r) ensures Indexed(st', r) {
      assert At(st, r) && Indexed(st, r);
    }
    forall id | id in st'.jobs ensures Points(st', id) {
      assert Points(st, id);
    }
    forall key | key in st'.reserved ensures Holds(st', key) {
      assert Holds(st, key);
      assert Points(st', st'.reserved[key]);
      if st.jobs[st.reserved[key]] == done {
        assert key == Key(t.jobs[k]);
      } else {
        assert key != Key(t.jobs[k]);
      }
    }
  }

  function IdsOf(js: seq<Job>): set<string> {
    set k | 0 <= k < |js| :: js[k].id
  }

  function KeysOf(js: seq<Job>): set<string> {
    set k | 0 <= k < |js| :: Key(js[k])
  }

  function AnswerKeysOf(os: seq<Observation>): set<string> {
    set i | 0 <= i < |os| :: NonceKey(os[i].binding.agent, os[i].binding.nonce)
  }

  lemma OneMoreJob(js: seq<Job>, k: nat)
    requires k < |js|
    ensures IdsOf(js[..k + 1]) == IdsOf(js[..k]) + {js[k].id}
    ensures KeysOf(js[..k + 1]) == KeysOf(js[..k]) + {Key(js[k])}
  {
    var more := js[..k + 1];
    assert more == js[..k] + [js[k]];
    assert more[k] == js[k];
    forall i | 0 <= i < k ensures more[i] == js[..k][i] {
    }
  }

  lemma OneMoreAnswer(os: seq<Observation>, k: nat)
    requires k < |os|
    ensures AnswerKeysOf(os[..k + 1]) == AnswerKeysOf(os[..k]) + {NonceKey(os[k].binding.agent, os[k].binding.nonce)}
  {
    var more := os[..k + 1];
    assert more == os[..k] + [os[k]];
    assert more[k] == os[k];
    forall i | 0 <= i < k ensures more[i] == os[..k][i] {
    }
  }

  function JobIds(s: Session): set<string> {
    IdsOf(s.jobs)
  }

  function JobKeys(s: Session): set<string> {
    KeysOf(s.jobs)
  }

  function AnswerKeys(s: Session): set<string> {
    AnswerKeysOf(s.observations)
  }

  function Removed(st: Store, id: string): Store
    requires id in st.sessions
  {
    var s := st.sessions[id];
    Store(st.sessions - {id}, st.jobs - JobIds(s), st.reserved - JobKeys(s), st.used - AnswerKeys(s))
  }

  lemma AnswerKeysAreCompleted(s: Session)
    requires SessionInv(s)
    ensures forall key :: key in AnswerKeys(s) <==> exists k :: 0 <= k < |s.jobs| && s.jobs[k].state.Completed? && Key(s.jobs[k]) == key
  {
    forall key | key in AnswerKeys(s)
      ensures exists k :: 0 <= k < |s.jobs| && s.jobs[k].state.Completed? && Key(s.jobs[k]) == key
    {
      var i :| 0 <= i < |s.observations| && NonceKey(s.observations[i].binding.agent, s.observations[i].binding.nonce) == key;
      var k := AnsweredJob(s, i);
    }
    forall k | 0 <= k < |s.jobs| && s.jobs[k].state.Completed?
      ensures Key(s.jobs[k]) in AnswerKeys(s)
    {
      assert Answered(s, k);
      var i :| 0 <= i < |s.observations| && Binds(s.observations[i], s.jobs[k]);
      assert NonceKey(s.observations[i].binding.agent, s.observations[i].binding.nonce) == Key(s.jobs[k]);
    }
  }

  lemma DifferentJobs(st: Store, r: Ref, q: Ref)
    requires Agree(st) && At(st, r) && At(st, q) && r != q
    ensures JobAt(st, r).id != JobAt(st, q).id && Key(JobAt(st, r)) != Key(JobAt(st, q))
  {
    assert Indexed(st, r) && Indexed(st, q);
  }

  /** Removing one session takes its own jobs and nonces and nobody else's. */
  lemma RemoveKeepsAgreement(st: Store, id: string)
    requires Agree(st) && id in st.sessions && SessionInv(st.sessions[id])
    ensures Agree(Removed(st, id))
    ensures forall r: Ref :: At(st, r) && r.session != id ==>
              var j := JobAt(st, r);
              && j.id !in JobIds(st.sessions[id]) && Key(j) !in JobKeys(st.sessions[id])
              && (j.state.Completed? ==> Key(j) in Removed(st, id).used)
  {
    var st' := Removed(st, id);
    var s := st.sessions[id];
    AnswerKeysAreCompleted(s);
    forall k | 0 <= k < |s.jobs| ensures Indexed(st, Ref(id, k)) {
      assert At(st, Ref(id, k));
    }
    forall r: Ref | At(st, r) && r.session != id
      ensures JobAt(st, r).id !in JobIds(s) && Key(JobAt(st, r)) !in JobKeys(s)
      ensures JobAt(st, r).state.Completed? ==> Key(JobAt(st, r)) in st'.used
    {
      assert Indexed(st, r);
      assert Holds(st, Key(JobAt(st, r)));
      forall k | 0 <= k < |s.jobs|
        ensures s.jobs[k].id != JobAt(st, r).id && Key(s.jobs[k]) != Key(JobAt(st, r))
      {
        DifferentJobs(st, Ref(id, k), r);
      }
    }
    forall r: Ref | At(st', r) ensures Indexed(st', r) {
      assert At(st, r) && Indexed(st, r);
    }
    forall i | i in st'.jobs ensures Points(st', i) && st.jobs[i].session != id {
      assert Points(st, i);
    }
    forall key | key in st'.reserved ensures Holds(st', key) {
      assert Holds(st, key);
      assert Points(st', st.reserved[key]);
    }
    forall key | key in st'.used ensures key in st'.reserved {
      assert Holds(st, key);
    }
  }

  /** A nonce is used if and only if a completed job of a live session has exactly that agent and
      that nonce. */
  lemma UsedByItsJob(st: Store, agent: string, nonce: string)
    requires Agree(st) && IsToken(agent)
    requires forall r: Ref {:trigger JobAt(st, r)} :: At(st, r) ==> IsToken(JobAt(st, r).binding.agent)
    ensures NonceKey(agent, nonce) in st.used <==>
            exists r: Ref :: At(st, r) && JobAt(st, r).state.Completed? && JobAt(st, r).binding.agent == agent && JobAt(st, r).binding.nonce == nonce
  {
    var key := NonceKey(agent, nonce);
    if key in st.used {
      assert Holds(st, key);
      var r := st.jobs[st.reserved[key]];
      KeyIsInjective(JobAt(st, r).binding.agent, JobAt(st, r).binding.nonce, agent, nonce);
    }
    if r: Ref :| At(st, r) && JobAt(st, r).state.Completed? && JobAt(st, r).binding.agent == agent && JobAt(st, r).binding.nonce == nonce {
      assert Indexed(st, r);
      assert Holds(st, key);
    }
  }
}
