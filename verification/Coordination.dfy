/**
  The automation coordinator. Its lock is held across calls into the controller, so one operation is
  one step; between operations sessions change in any way the session manager allows.
*/
module Coordination {
  import opened Wrappers
  import opened SortedLists
  import opened SessionSpec
  import opened SessionStore
  import opened Sessions
  import opened Controller
  import opened Books

  /** What one attempt to start a session meets: the agent found for it and the generated names. */
  datatype Attempt = Attempt(request: Request, choice: Choice, transient: bool, id: string, jobId: string, nonce: string)

  /** At most this node's entry is new, and at most one probe of it. */
  predicate Tried(f: Failure, id: string, now: Time, before: map<Node, Entry>, log: seq<Start>, after: map<Node, Entry>, probes: seq<Start>) {
    || (after == before && probes == log && f.node in before)
    || (f.node in after && after == before[f.node := after[f.node]] && (probes == log || probes == log + [Start(f.node, now, id)]))
  }

  /** A handle the alert waits for; retryAt is set when its start was refused for now. */
  datatype Waiting = Waiting(handle: Handle, retryAt: Option<Time>)

  predicate Due(w: Waiting, now: Time) {
    w.retryAt.Some? && w.retryAt.value <= now
  }

  /** The names for these nodes' sessions are all different and have not been given out. */
  predicate FreshNames(attempts: map<Node, Attempt>, nodes: set<Node>, issued: set<string>) {
    && nodes <= attempts.Keys
    && (forall n :: n in nodes ==> attempts[n].id !in issued && attempts[n].id != "")
    && (forall n, m :: n in nodes && m in nodes && n != m ==> attempts[n].id != attempts[m].id)
  }

  function Ids(attempts: map<Node, Attempt>): set<string> {
    set n | n in attempts :: attempts[n].id
  }

  predicate IssuedOnly(attempts: map<Node, Attempt>, before: set<string>, after: set<string>) {
    after <= before + Ids(attempts)
  }

  lemma IssuedStep(attempts: map<Node, Attempt>, before: set<string>, middle: set<string>, after: set<string>, n: Node)
    requires IssuedOnly(attempts, before, middle) && n in attempts && after <= middle + {attempts[n].id}
    ensures IssuedOnly(attempts, before, after)
  {
  }

  lemma FewerNames(attempts: map<Node, Attempt>, nodes: set<Node>, before: set<string>, after: set<string>, n: Node)
    requires FreshNames(attempts, nodes, before) && n in nodes && after <= before + {attempts[n].id}
    ensures FreshNames(attempts, nodes - {n}, after)
  {
  }

  /** What is due and not in `left` was tried again; nothing else changed. */
  predicate Resumed(waiting: map<Node, Waiting>, left: set<Node>, resumed: map<Node, Waiting>, pause: nat, now: Time) {
    && left <= waiting.Keys == resumed.Keys
    && (forall n :: n in waiting && !Due(waiting[n], now) ==> n !in left && resumed[n] == waiting[n])
    && (forall n :: n in waiting && Due(waiting[n], now) && n !in left ==> !Due(resumed[n], now) || pause == 0)
  }

  lemma ResumedStep(waiting: map<Node, Waiting>, left: set<Node>, resumed: map<Node, Waiting>, pause: nat, now: Time, n: Node, w: Waiting)
    requires Resumed(waiting, left, resumed, pause, now) && n in left && (!Due(w, now) || pause == 0)
    ensures Resumed(waiting, left - {n}, resumed[n := w], pause, now) && Due(waiting[n], now)
  {
  }

  /** The probes started since then are of nodes whose start was due. */
  predicate OnlyDue(waiting: map<Node, Waiting>, starts: seq<Start>, since: nat, now: Time) {
    forall i :: since <= i < |starts| ==> starts[i].node in waiting && Due(waiting[starts[i].node], now)
  }

  lemma OnlyDueStep(waiting: map<Node, Waiting>, before: seq<Start>, after: seq<Start>, since: nat, now: Time, n: Node)
    requires OnlyDue(waiting, before, since, now) && n in waiting && Due(waiting[n], now)
    requires after == before || exists s: Start :: s.node == n && after == before + [s]
    ensures OnlyDue(waiting, after, since, now)
  {
  }

  /** How far the retries have come when the nodes in `left` are still to be tried. */
  predicate Resuming(waiting: map<Node, Waiting>, attempts: map<Node, Attempt>, left: set<Node>, resumed: map<Node, Waiting>, pause: nat, now: Time,
                     log: seq<Start>, starts: seq<Start>, before: set<string>, issued: set<string>)
  {
    && FreshNames(attempts, left, issued) && IssuedOnly(attempts, before, issued)
    && Resumed(waiting, left, resumed, pause, now) && log <= starts && OnlyDue(waiting, starts, |log|, now)
  }

  function DueNodes(waiting: map<Node, Waiting>, now: Time): set<Node> {
    set n | n in waiting && Due(waiting[n], now)
  }

  lemma ResumingStarts(waiting: map<Node, Waiting>, attempts: map<Node, Attempt>, pause: nat, now: Time, log: seq<Start>, issued: set<string>)
    requires waiting.Keys <= attempts.Keys && FreshNames(attempts, attempts.Keys, issued)
    ensures Resuming(waiting, attempts, DueNodes(waiting, now), waiting, pause, now, log, log, issued, issued)
  {
  }

  lemma ResumingStep(waiting: map<Node, Waiting>, attempts: map<Node, Attempt>, left: set<Node>, resumed: map<Node, Waiting>, pause: nat, now: Time,
                     log: seq<Start>, middle: seq<Start>, starts: seq<Start>, before: set<string>, known: set<string>, issued: set<string>, n: Node, w: Waiting)
    requires Resuming(waiting, attempts, left, resumed, pause, now, log, middle, before, known) && n in left
    requires issued <= known + {attempts[n].id} && (!Due(w, now) || pause == 0)
    requires starts == middle || exists s: Start :: s.node == n && starts == middle + [s]
    ensures Resuming(waiting, attempts, left - {n}, resumed[n := w], pause, now, log, starts, before, issued)
  {
    ResumedStep(waiting, left, resumed, pause, now, n, w);
    OnlyDueStep(waiting, middle, starts, |log|, now, n);
    FewerNames(attempts, left, known, issued, n);
    IssuedStep(attempts, before, known, issued, n);
  }

  datatype Failure = Failure(node: Node, kind: Kind, since: Time)

  /** Whether an entry still has to be asked about the episode (kind, since). */
  function NeedsProbe(e: Entry, view: Option<View>, kind: Kind, since: Time, now: Time, cooldown: Time): bool {
    if e.handle.session == "" then true
    else if view.Some? && !view.value.terminal then false
    else
      var answered := if view.Some? then view.value.observations > 0 else e.final.Some?;
      !answered || e.kind != kind || (e.since != since && now - e.handle.startedAt >= cooldown)
  }

  /** The entry's session has an observation, or it is gone and its verdict was kept. */
  predicate HasAnswer(sessions: map<string, Session>, e: Entry) {
    e.handle.session != "" &&
    if e.handle.session in sessions then sessions[e.handle.session].state.Terminal() && sessions[e.handle.session].observations != []
    else e.final.Some?
  }

  /** This entry holds an answer for exactly this episode. */
  predicate AnswersFor(e: Entry, f: Failure) {
    e.final.Some? && e.kind == f.kind && e.since == f.since
  }

  /** The check still reports the episode the node's entry answered for. */
  predicate Lasting(availability: map<Node, Entry>, failures: seq<Failure>, f: Failure) {
    && f.node != "" && f.node in availability && AnswersFor(availability[f.node], f)
    && forall g :: g in failures && g.node == f.node ==> g == f
  }

  /** The entry still stands for the same probe, and a kept verdict stays as it is. */
  predicate SameProbe(before: Entry, after: Entry) {
    && after.kind == before.kind && after.since == before.since && after.handle == before.handle
    && (before.final.Some? ==> after.final == before.final)
    && (before.journaled ==> after.journaled)
  }

  ghost predicate SameProbes(before: map<Node, Entry>, after: map<Node, Entry>) {
    before.Keys == after.Keys && forall n :: n in before ==> SameProbe(before[n], after[n])
  }

  /** Every node whose answered episode lasts kept its entry, and none of these probes is of it. */
  ghost predicate Quiet(before: map<Node, Entry>, failures: seq<Failure>, after: map<Node, Entry>, probes: seq<Start>) {
    forall f :: f in failures && Lasting(before, failures, f) ==>
      && f.node in after && SameProbe(before[f.node], after[f.node])
      && forall i :: 0 <= i < |probes| ==> probes[i].node != f.node
  }

  lemma PrunedIsQuiet(before: map<Node, Entry>, harvested: map<Node, Entry>, after: map<Node, Entry>, failures: seq<Failure>, current: set<Node>)
    requires SameProbes(before, harvested)
    requires forall n :: n in after ==> n in harvested && after[n] == harvested[n]
    requires forall n :: n in harvested && n in current ==> n in after
    requires current == set i | 0 <= i < |failures| && failures[i].node != "" :: failures[i].node
    ensures Quiet(before, failures, after, [])
  {
    forall f | f in failures && Lasting(before, failures, f)
      ensures f.node in after && SameProbe(before[f.node], after[f.node])
    {
      var i :| 0 <= i < |failures| && failures[i] == f;
      assert failures[i].node in current;
    }
  }

  lemma QuietStep(before: map<Node, Entry>, failures: seq<Failure>, entries: map<Node, Entry>, probes: seq<Start>,
                  f: Failure, entries': map<Node, Entry>, probes': seq<Start>)
    requires Quiet(before, failures, entries, probes) && f in failures
    requires entries' == entries || (f.node in entries' && entries' == entries[f.node := entries'[f.node]])
    requires probes' == probes || exists s: Start :: s.node == f.node && probes' == probes + [s]
    requires f.node in entries && AnswersFor(entries[f.node], f) ==> entries' == entries && probes' == probes
    ensures Quiet(before, failures, entries', probes')
  {
    forall g | g in failures && Lasting(before, failures, g)
      ensures g.node in entries' && SameProbe(before[g.node], entries'[g.node])
      ensures forall i :: 0 <= i < |probes'| ==> probes'[i].node != g.node
    {
      if g.node == f.node {
        assert f == g;
        assert AnswersFor(entries[f.node], f);
      } else if probes' != probes {
        var s: Start :| s.node == f.node && probes' == probes + [s];
        forall i | 0 <= i < |probes'| ensures probes'[i].node != g.node {
          assert i < |probes| ==> probes'[i] == probes[i];
        }
      }
    }
  }

  lemma TriedIsQuiet(before: map<Node, Entry>, failures: seq<Failure>, entries: map<Node, Entry>, log: seq<Start>, f: Failure, id: string, now: Time,
                     entries': map<Node, Entry>, probes: seq<Start>, mark: nat)
    requires mark <= |log| && Quiet(before, failures, entries, log[mark..]) && f in failures
    requires Tried(f, id, now, entries, log, entries', probes)
    requires f.node in entries && AnswersFor(entries[f.node], f) ==> entries' == entries && probes == log
    ensures log <= probes && Quiet(before, failures, entries', probes[mark..]) && entries'.Keys == entries.Keys + {f.node}
  {
    if probes != log {
      var s := Start(f.node, now, id);
      assert probes[mark..] == log[mark..] + [s];
    }
    QuietStep(before, failures, entries, log[mark..], f, entries', probes[mark..]);
  }

  datatype Annotation = Underway | Unavailable | Verdict(text: string)

  function AnnotationOf(session: string, view: Option<View>, judge: string -> string): Annotation {
    if session == "" || view.None? then Unavailable
    else if view.value.observations > 0 then Verdict(judge(session))
    else if view.value.terminal then Unavailable else Underway
  }

  /** What an alert is told about a probe: a verdict exactly when some agent answered, nothing yet exactly
      while one still may, and otherwise that nobody could look. */
  lemma AnnotationInFacts(sessions: map<string, Session>, id: string, judge: string -> string)
    ensures var a := AnnotationOf(id, ViewOf(sessions, id), judge);
            && (a.Verdict? <==> id != "" && id in sessions && sessions[id].observations != [])
            && (a.Verdict? ==> a.text == judge(id))
            && (a.Underway? <==> id != "" && IsInFlight(sessions, id) && sessions[id].observations == [])
  {
  }

  function RecordOf(n: Node, e: Entry): Record {
    Record(n, e.handle.session, e.kind, e.since, if e.final.Some? then e.final.value else "unavailable")
  }

  /** A session that ended without a single observation. */
  predicate Gone(sessions: map<string, Session>, h: Handle) {
    h.session != "" && ViewOf(sessions, h.session) == Some(View(true, 0))
  }

  /** A speed probe keeps its entry for the cooldown and while it is in flight, unless it is gone. */
  predicate Stays(sessions: map<string, Session>, h: Handle, now: Time, cooldown: Time) {
    !Gone(sessions, h) && (now - h.startedAt < cooldown || !Free(sessions, h.session))
  }

  function Kept(entries: map<Node, Handle>, left: set<Node>, sessions: map<string, Session>, now: Time, cooldown: Time): map<Node, Handle> {
    map n | n in entries && (n in left || Stays(sessions, entries[n], now, cooldown)) :: entries[n]
  }

  function GoneIds(entries: map<Node, Handle>, done: set<Node>, sessions: map<string, Session>): set<string> {
    set n | n in done && n in entries && Gone(sessions, entries[n]) :: entries[n].session
  }

  /** What is left of the entries, and which sessions are gone, when the nodes in `left` are still to come. */
  predicate Pruning(before: map<Node, Handle>, left: set<Node>, entries: map<Node, Handle>, others: set<string>, abandoned: set<string>,
                    sessions: map<string, Session>, now: Time, cooldown: Time)
  {
    entries == Kept(before, left, sessions, now, cooldown) && abandoned == others + GoneIds(before, before.Keys - left, sessions)
  }

  lemma PruneStep(before: map<Node, Handle>, left: set<Node>, entries: map<Node, Handle>, others: set<string>, abandoned: set<string>,
                  sessions: map<string, Session>, now: Time, cooldown: Time, n: Node)
    requires left <= before.Keys && n in left && Pruning(before, left, entries, others, abandoned, sessions, now, cooldown)
    ensures n in entries && entries[n] == before[n]
    ensures Pruning(before, left - {n}, if Stays(sessions, before[n], now, cooldown) then entries else entries - {n},
                    others, abandoned + if Gone(sessions, before[n]) then {before[n].session} else {}, sessions, now, cooldown)
  {
    var done, more := before.Keys - left, before.Keys - (left - {n});
    forall id | id in GoneIds(before, done, sessions) ensures id in GoneIds(before, more, sessions) {
      var m :| m in done && m in before && Gone(sessions, before[m]) && before[m].session == id;
      assert m in more;
    }
    assert n in more;
    assert GoneIds(before, more, sessions) == GoneIds(before, done, sessions) + if Gone(sessions, before[n]) then {before[n].session} else {};
  }

  /** An availability entry outlives its failure for the cooldown and while its probe is in flight. */
  predicate Remains(sessions: map<string, Session>, e: Entry, now: Time, cooldown: Time) {
    e.handle.session != "" && (!Free(sessions, e.handle.session) || now - e.handle.startedAt < cooldown)
  }

  function Remaining(availability: map<Node, Entry>, spared: set<Node>, sessions: map<string, Session>, now: Time, cooldown: Time): map<Node, Entry> {
    map n | n in availability && (n in spared || Remains(sessions, availability[n], now, cooldown)) :: availability[n]
  }

  /** The entry of a probe that was just asked for, whether or not an agent took it. */
  predicate Asked(e: Entry, f: Failure, attempt: Attempt, now: Time) {
    && e.kind == f.kind && e.since == f.since && e.final.None? && !e.journaled
    && e.handle.startedAt == now && (e.handle.session == "" || e.handle.session == attempt.id)
  }

  /** A harvest marks exactly what has an answer or has ended, and keeps the first answer. */
  predicate Harvested(e: Entry, view: Option<View>, judge: string -> string, after: Entry) {
    && SameProbe(e, after)
    && (after.journaled <==>
          || e.journaled
          || (e.handle.session != "" && (e.final.Some? || (view.Some? && (view.value.terminal || view.value.observations > 0)))))
    && after.final == if e.final.None? && !e.journaled && e.handle.session != "" && view.Some? && view.value.observations > 0
                      then Some(judge(e.handle.session)) else e.final
  }

  /** These records are of exactly the entries that were marked, one each. */
  predicate Written(before: map<Node, Entry>, after: map<Node, Entry>, records: seq<Record>) {
    && before.Keys == after.Keys
    && (forall r :: r in records ==> r.node in before && !before[r.node].journaled && after[r.node].journaled && r == RecordOf(r.node, after[r.node]))
    && (forall n :: n in before && !before[n].journaled && after[n].journaled ==> RecordOf(n, after[n]) in records)
    && (forall i, j :: 0 <= i < j < |records| ==> records[i].node != records[j].node)
  }

  lemma WrittenStep(before: map<Node, Entry>, middle: map<Node, Entry>, after: map<Node, Entry>, records: seq<Record>, n: Node)
    requires Written(before, middle, records) && n in middle && middle[n] == before[n]
    requires n in after && after == middle[n := after[n]] && (before[n].journaled ==> after[n].journaled)
    ensures Written(before, after, records + if middle[n].journaled == after[n].journaled then [] else [RecordOf(n, after[n])])
  {
    var more := records + if middle[n].journaled == after[n].journaled then [] else [RecordOf(n, after[n])];
    forall i | 0 <= i < |records| ensures records[i].node != n {
      assert records[i] in records;
    }
    forall m | m in before && !before[m].journaled && after[m].journaled ensures RecordOf(m, after[m]) in more {
      if m == n {
        assert more[|records|] == RecordOf(n, after[n]);
      }
    }
  }

  /** The entries so far, and what was written, when the nodes in `left` are still to come. */
  ghost predicate Harvesting(before: map<Node, Entry>, left: set<Node>, after: map<Node, Entry>, records: seq<Record>, sessions: map<string, Session>, judge: string -> string) {
    && Written(before, after, records)
    && (forall n :: n in before && n in left ==> after[n] == before[n])
    && (forall n :: n in before && n !in left ==> Harvested(before[n], ViewOf(sessions, before[n].handle.session), judge, after[n]))
  }

  lemma HarvestStep(before: map<Node, Entry>, left: set<Node>, middle: map<Node, Entry>, after: map<Node, Entry>, records: seq<Record>, written: seq<Record>,
                    sessions: map<string, Session>, judge: string -> string, n: Node)
    requires Harvesting(before, left, middle, records, sessions, judge) && n in left && n in before
    requires n in after && after == middle[n := after[n]] && Harvested(middle[n], ViewOf(sessions, before[n].handle.session), judge, after[n])
    requires written == if middle[n].journaled == after[n].journaled then [] else [RecordOf(n, after[n])]
    ensures Harvesting(before, left - {n}, after, records + written, sessions, judge)
  {
    WrittenStep(before, middle, after, records, n);
  }

  /** An entry that goes without any session was looked at by nobody, and that is written down once. */
  predicate Unseen(e: Entry) {
    e.handle.session == "" && !e.journaled
  }

  /** These records are of exactly the dropped entries nobody looked at, one each. */
  predicate Dropped(before: map<Node, Entry>, after: map<Node, Entry>, records: seq<Record>) {
    && (forall r :: r in records ==> r.node in before && r.node !in after && Unseen(before[r.node]) && r == RecordOf(r.node, before[r.node]))
    && (forall n :: n in before && n !in after && Unseen(before[n]) ==> RecordOf(n, before[n]) in records)
    && (forall i, j :: 0 <= i < j < |records| ==> records[i].node != records[j].node)
  }

  lemma Appended(log: seq<Record>, records: seq<Record>)
    ensures log <= log + records && (log + records)[|log|..] == records
  {
  }

  lemma NothingAdded<T>(s: set<T>)
    ensures s + {} == s
  {
  }

  lemma NothingAppended<T>(s: seq<T>)
    ensures s + [] == s
  {
  }

  lemma NothingReplaced<K, V>(m: map<K, V>, k: K)
    requires k in m
    ensures m == m[k := m[k]]
  {
  }

  lemma Appending<T>(a: seq<T>, b: seq<T>, c: seq<T>)
    ensures a + b + c == a + (b + c)
  {
  }

  lemma NothingPruned(before: map<Node, Entry>, current: set<Node>, sessions: map<string, Session>, now: Time, cooldown: Time)
    ensures Pruned(before, before.Keys, current, before, [], sessions, now, cooldown)
  {
    assert Remaining(before, current + before.Keys, sessions, now, cooldown) == before;
  }

  /** What is left of the entries, and what was written, when the nodes in `left` are still to come. */
  predicate Pruned(before: map<Node, Entry>, left: set<Node>, current: set<Node>, after: map<Node, Entry>, records: seq<Record>,
                   sessions: map<string, Session>, now: Time, cooldown: Time)
  {
    after == Remaining(before, current + left, sessions, now, cooldown) && Dropped(before, after, records)
  }

  lemma AllPruned(before: map<Node, Entry>, current: set<Node>, after: map<Node, Entry>, records: seq<Record>, sessions: map<string, Session>, now: Time, cooldown: Time)
    requires Pruned(before, {}, current, after, records, sessions, now, cooldown)
    ensures after == Remaining(before, current, sessions, now, cooldown) && Dropped(before, after, records)
  {
    assert current + {} == current;
  }

  lemma PrunedStep(before: map<Node, Entry>, left: set<Node>, current: set<Node>, after: map<Node, Entry>, records: seq<Record>,
                   sessions: map<string, Session>, now: Time, cooldown: Time, n: Node)
    requires Pruned(before, left, current, after, records, sessions, now, cooldown) && n in left && left <= before.Keys
    ensures n in after && after[n] == before[n]
    ensures n in current ==> Pruned(before, left - {n}, current, after, records, sessions, now, cooldown)
    ensures n !in current ==>
              Pruned(before, left - {n}, current, if Remains(sessions, before[n], now, cooldown) then after else after - {n},
                     records + if Unseen(before[n]) then [RecordOf(n, before[n])] else [], sessions, now, cooldown)
  {
    assert n in current ==> Remaining(before, current + (left - {n}), sessions, now, cooldown) == after;
    if n !in current && !Remains(sessions, before[n], now, cooldown) {
      assert Remaining(before, current + (left - {n}), sessions, now, cooldown) == after - {n};
      DroppedStep(before, after, records, n);
    }
  }

  lemma DroppedStep(before: map<Node, Entry>, middle: map<Node, Entry>, records: seq<Record>, n: Node)
    requires Dropped(before, middle, records) && n in middle && n in before && middle[n] == before[n]
    ensures Dropped(before, middle - {n}, records + if Unseen(before[n]) then [RecordOf(n, before[n])] else [])
  {
    var more := records + if Unseen(before[n]) then [RecordOf(n, before[n])] else [];
    forall i | 0 <= i < |records| ensures records[i].node != n {
      assert records[i] in records;
    }
    forall m | m in before && m !in middle - {n} && Unseen(before[m]) ensures RecordOf(m, before[m]) in more {
      if m == n {
        assert more[|records|] == RecordOf(n, before[n]);
      }
    }
  }

  /** The oldest failure first, then by node. */
  function Older(): (Failure, Failure) -> bool {
    (f: Failure, g: Failure) => f.since < g.since || (f.since == g.since && Before(f.node, g.node))
  }

  ghost predicate OneForEachNode(failures: set<Failure>) {
    forall f, g :: f in failures && g in failures && f.node == g.node ==> f == g
  }

  lemma OlderOrders(failures: set<Failure>)
    requires OneForEachNode(failures)
    ensures Orders(Older(), failures)
  {
    forall f | f in failures ensures !Older()(f, f) {
      BeforeIsIrreflexive(f.node);
    }
    forall f, g | f in failures && g in failures && f != g ensures Older()(f, g) || Older()(g, f) {
      BeforeIsTotal(f.node, g.node);
    }
    forall f, g, h | f in failures && g in failures && h in failures && Older()(f, g) && Older()(g, h) ensures Older()(f, h) {
      if f.since == g.since == h.since {
        BeforeIsTransitive(f.node, g.node, h.node);
      }
    }
  }

  method SortFailures(failures: seq<Failure>) returns (r: seq<Failure>)
    requires forall i, j :: 0 <= i < j < |failures| ==> failures[i].node != failures[j].node
    ensures Ascending(r, Older()) && forall f :: f in r <==> f in failures
    ensures forall i, j :: 0 <= i < j < |r| ==> r[i].node != r[j].node
  {
    r := [];
    for i := 0 to |failures|
      invariant Lists(r, Elements(failures[..i]), Older())
    {
      assert failures[..i + 1] == failures[..i] + [failures[i]];
      OlderOrders(Elements(r) + {failures[i]});
      r := Insert(r, failures[i], Older());
      assert Elements(failures[..i + 1]) == Elements(failures[..i]) + {failures[i]};
    }
    assert failures[..|failures|] == failures;
    assert forall f :: f in r <==> f in Elements(r);
    OlderOrders(Elements(r));
    AscendingIsDistinct(r, Older());
    forall i, j | 0 <= i < j < |r| ensures r[i].node != r[j].node {
      assert r[i] in Elements(r) && r[j] in Elements(r);
    }
  }

  /** This report is the first of its node, which is one of ours. */
  predicate Counts(failures: seq<Failure>, ours: set<Node>, i: int) {
    && 0 <= i < |failures| && failures[i].node != "" && failures[i].node in ours
    && forall j :: 0 <= j < i ==> failures[j].node != failures[i].node
  }

  function Reported(failures: seq<Failure>): set<Node> {
    set i | 0 <= i < |failures| && failures[i].node != "" :: failures[i].node
  }

  /** Some first report of one of our nodes is this one. */
  ghost predicate IsCounted(failures: seq<Failure>, ours: set<Node>, c: Failure) {
    exists i :: Counts(failures, ours, i) && failures[i] == c
  }

  /** The candidates and nodes among the first reports. */
  ghost predicate Chosen(failures: seq<Failure>, ours: set<Node>, i: nat, candidates: seq<Failure>, current: set<Node>)
    requires i <= |failures|
  {
    && current == Reported(failures[..i])
    && (forall c :: c in candidates ==> c.node in current && IsCounted(failures, ours, c))
    && (forall k :: k < i && Counts(failures, ours, k) ==> failures[k] in candidates)
    && (forall k, j :: 0 <= k < j < |candidates| ==> candidates[k].node != candidates[j].node)
  }

  lemma ChosenStep(failures: seq<Failure>, ours: set<Node>, i: nat, candidates: seq<Failure>, current: set<Node>)
    requires i < |failures| && Chosen(failures, ours, i, candidates, current)
    ensures var f := failures[i];
            Chosen(failures, ours, i + 1, if f.node != "" && f.node !in current && f.node in ours then candidates + [f] else candidates,
                   if f.node != "" && f.node !in current then current + {f.node} else current)
  {
    ReportedOneMore(failures, i);
    CountsIsNew(failures, ours, i);
    if Counts(failures, ours, i) {
      OneMoreCandidate(failures, ours, i, candidates, current);
    } else {
      NoMoreCandidate(failures, ours, i, candidates, current, Reported(failures[..i + 1]));
    }
  }

  lemma NoMoreCandidate(failures: seq<Failure>, ours: set<Node>, i: nat, candidates: seq<Failure>, current: set<Node>, more: set<Node>)
    requires i < |failures| && Chosen(failures, ours, i, candidates, current) && !Counts(failures, ours, i)
    requires current <= more == Reported(failures[..i + 1])
    ensures Chosen(failures, ours, i + 1, candidates, more)
  {
  }

  lemma OneMoreCandidate(failures: seq<Failure>, ours: set<Node>, i: nat, candidates: seq<Failure>, current: set<Node>)
    requires i < |failures| && Chosen(failures, ours, i, candidates, current) && Counts(failures, ours, i) && failures[i].node !in current
    requires Reported(failures[..i + 1]) == current + {failures[i].node}
    ensures Chosen(failures, ours, i + 1, candidates + [failures[i]], current + {failures[i].node})
  {
    var more := candidates + [failures[i]];
    assert IsCounted(failures, ours, failures[i]);
    assert more[|candidates|] == failures[i];
    forall k | 0 <= k < |candidates| ensures more[k] == candidates[k] && candidates[k].node != failures[i].node {
      assert candidates[k] in candidates;
    }
  }

  lemma ReportedOneMore(failures: seq<Failure>, i: nat)
    requires i < |failures|
    ensures Reported(failures[..i + 1]) == Reported(failures[..i]) + if failures[i].node != "" then {failures[i].node} else {}
  {
    var some, more := failures[..i], failures[..i + 1];
    forall n | n in Reported(some) ensures n in Reported(more) {
      var k :| 0 <= k < i && some[k].node == n;
      assert more[k] == some[k];
    }
    forall n | n in Reported(more) ensures n in Reported(some) || n == failures[i].node {
      var k :| 0 <= k < i + 1 && more[k].node == n;
      assert k < i ==> some[k] == more[k];
    }
    assert more[i] == failures[i];
  }

  lemma CountsIsNew(failures: seq<Failure>, ours: set<Node>, i: nat)
    requires i < |failures|
    ensures Counts(failures, ours, i) <==> failures[i].node != "" && failures[i].node in ours && failures[i].node !in Reported(failures[..i])
  {
    forall j | 0 <= j < i && failures[j].node == failures[i].node != "" ensures failures[i].node in Reported(failures[..i]) {
      assert failures[..i][j] == failures[j];
    }
  }

  class Coordinator {
    const controller: Controller
    const cooldown: nat
    const maxConcurrent: nat
    const judge: string -> string
    var entries: map<Node, Handle>
    var availability: map<Node, Entry>
    var journal: seq<Record>
    ghost var created: set<string>
    ghost var starts: seq<Start>
    ghost var probes: seq<Start>
    ghost var abandoned: set<string>
    ghost var clock: Time

    ghost function Contents(): Books
      reads this
    {
      Books(entries, availability, created, journal)
    }

    ghost predicate Valid()
      reads this, controller, controller.manager
    {
      && controller.Valid() && created <= controller.issued
      && BooksInv(Contents(), controller.manager.sessions, maxConcurrent)
      && CooldownInv(entries, starts, abandoned, clock, cooldown)
    }

    /** The sessions as any reading at this time shows them. */
    ghost function Seen(now: Time): map<string, Session>
      reads controller.manager
    {
      OverdueAll(controller.manager.sessions, now)
    }

    constructor (controller: Controller, cooldown: nat, maxConcurrent: nat, judge: string -> string, now: Time)
      requires controller.Valid() && cooldown >= 60 && maxConcurrent >= 1
      ensures Valid() && this.controller == controller && entries == map[] && availability == map[]
    {
      this.controller, this.cooldown, this.maxConcurrent, this.judge := controller, cooldown, maxConcurrent, judge;
      entries, availability, journal := map[], map[], [];
      created, starts, probes, abandoned, clock := {}, [], [], {}, now;
    }

    // ----- reading sessions -----

    /** Reading through the controller keeps the books right. */
    method Look(id: string, now: Time) returns (view: Option<View>)
      requires Valid()
      modifies controller.manager`sessions
      ensures Valid() && Reads(old(controller.manager.sessions), now)
      ensures controller.manager.sessions == old(Seen(now)) && view == ViewOf(old(Seen(now)), id)
    {
      ghost var before := controller.manager.sessions;
      view := controller.Read(id, now);
      EvolutionKeepsBooks(Contents(), before, controller.issued, controller.manager.sessions, maxConcurrent);
    }

    /** inFlightLocked. */
    method InFlight(h: Handle, now: Time) returns (b: bool)
      requires Valid()
      modifies controller.manager`sessions
      ensures Valid() && Reads(old(controller.manager.sessions), now)
      ensures b == !Free(old(Seen(now)), h.session) == !Free(controller.manager.sessions, h.session)
    {
      if h.session == "" {
        return false;
      }
      var view := Look(h.session, now);
      return view.Some? && !view.value.terminal;
    }

    /** abandonedLocked. */
    method Abandoned(h: Handle, now: Time) returns (b: bool)
      requires Valid()
      modifies controller.manager`sessions
      ensures Valid() && Reads(old(controller.manager.sessions), now)
      ensures b == Gone(old(Seen(now)), h) && (b ==> Free(controller.manager.sessions, h.session))
    {
      if h.session == "" {
        return false;
      }
      var view := Look(h.session, now);
      return view == Some(View(true, 0));
    }

    /** Since then the sessions were only read. */
    ghost predicate Reads(start: map<string, Session>, now: Time)
      reads controller.manager
    {
      OnlyRead(start, controller.manager.sessions, now)
    }

    method CountOne(handles: map<Node, Handle>, a: Node, now: Time, n: nat, ghost done: set<Node>, ghost start: map<string, Session>) returns (m: nat)
      requires Valid() && Unshared(handles) && a in handles && a !in done
      requires Reads(start, now) && Tally(handles, done, n, OverdueAll(start, now), controller.manager.sessions)
      modifies controller.manager`sessions
      ensures Valid() && Reads(start, now) && Tally(handles, done + {a}, m, OverdueAll(start, now), controller.manager.sessions)
    {
      ghost var before := controller.manager.sessions;
      var b := InFlight(handles[a], now);
      ReadAgain(start, before, controller.manager.sessions, now);
      m := if b then n + 1 else n;
      TallyStep(handles, done, n, OverdueAll(start, now), before, controller.manager.sessions, a, m);
    }

    /** One of the two loops of activeLocked. */
    method CountInFlight(handles: map<Node, Handle>, now: Time) returns (n: nat)
      requires Valid() && Unshared(handles)
      modifies controller.manager`sessions
      ensures Valid() && Reads(old(controller.manager.sessions), now)
      ensures Tally(handles, handles.Keys, n, old(Seen(now)), controller.manager.sessions)
    {
      ghost var start := controller.manager.sessions;
      n := 0;
      var left := handles.Keys;
      ghost var done: set<Node> := {};
      TallyNothing(handles, OverdueAll(start, now), start);
      while left != {}
        invariant Valid() && Reads(start, now) && Split(done, left, handles.Keys)
        invariant Tally(handles, done, n, OverdueAll(start, now), controller.manager.sessions)
        decreases left
      {
        var a :| a in left;
        SplitStep(done, left, handles.Keys, a);
        n := CountOne(handles, a, now, n, done, start);
        left, done := left - {a}, done + {a};
      }
      assert done == handles.Keys;
    }

    /** activeLocked counts exactly the sessions it ever created that are still in flight. */
    method Active(now: Time) returns (n: nat)
      requires Valid()
      modifies controller.manager`sessions
      ensures Valid() && Reads(old(controller.manager.sessions), now)
      ensures n == |Live(created, old(Seen(now)))| == |Live(created, controller.manager.sessions)|
    {
      ghost var start, seen := controller.manager.sessions, Seen(now);
      BooksSeen(Contents(), controller.manager.Contents(), controller.issued, maxConcurrent, now);
      HandlesAreUnshared(Contents());
      var speed := CountInFlight(entries, now);
      ghost var middle := controller.manager.sessions;
      var others := CountInFlight(Handles(availability), now);
      ReadAgain(start, middle, controller.manager.sessions, now);
      CountsAgree(Contents(), maxConcurrent, speed, others, seen, middle, controller.manager.sessions, now);
      return speed + others;
    }

    // ----- speed probes -----

    /** pruneLocked for one entry. */
    method PruneOne(n: Node, now: Time)
      requires Valid() && n in entries && clock == now
      modifies this`entries, this`abandoned, controller.manager`sessions
      ensures Valid() && Reads(old(controller.manager.sessions), now)
      ensures entries == if Stays(old(Seen(now)), old(entries)[n], now, cooldown) then old(entries) else old(entries) - {n}
      ensures abandoned == old(abandoned) + if Gone(old(Seen(now)), old(entries)[n]) then {old(entries)[n].session} else {}
    {
      var h := entries[n];
      var gone := Abandoned(h, now);
      if gone {
        DropSpeed(n, true);
        return;
      }
      NothingAdded(abandoned);
      if now - h.startedAt < cooldown {
        return;
      }
      var out := InFlight(h, now);
      if !out {
        DropSpeed(n, false);
      }
    }

    method DropSpeed(n: Node, ghost gone: bool)
      requires Valid() && n in entries && Free(controller.manager.sessions, entries[n].session)
      requires gone || clock - entries[n].startedAt >= cooldown
      modifies this`entries, this`abandoned
      ensures Valid() && entries == old(entries) - {n}
      ensures abandoned == old(abandoned) + if gone then {old(entries)[n].session} else {}
    {
      DropSpeedKeepsBooks(Contents(), controller.manager.sessions, maxConcurrent, n);
      DropKeepsCooldown(entries, starts, abandoned, clock, cooldown, n, gone);
      ghost var more := if gone then {entries[n].session} else {};
      abandoned := abandoned + more;
      entries := entries - {n};
    }

    /** pruneLocked: entries are visited in any order. */
    method Prune(now: Time)
      requires Valid() && clock == now
      modifies this`entries, this`abandoned, controller.manager`sessions
      ensures Valid() && Reads(old(controller.manager.sessions), now)
      ensures entries == Kept(old(entries), {}, old(Seen(now)), now, cooldown)
      ensures abandoned == old(abandoned) + GoneIds(old(entries), old(entries).Keys, old(Seen(now)))
      // what is young or in flight stays, unless its session ended without an observation
      ensures forall n :: n in old(entries) ==>
                var h, seen := old(entries)[n], old(Seen(now));
                (n in entries <==> (now < h.startedAt + cooldown || (h.session != "" && IsInFlight(seen, h.session)))
                                   && !(h.session != "" && h.session in seen && seen[h.session].state.Terminal() && seen[h.session].observations == []))
    {
      ghost var start, before, others := controller.manager.sessions, entries, abandoned;
      var left := entries.Keys;
      assert Kept(before, left, OverdueAll(start, now), now, cooldown) == entries;
      while left != {}
        invariant Valid() && Reads(start, now) && left <= before.Keys
        invariant Pruning(before, left, entries, others, abandoned, OverdueAll(start, now), now, cooldown)
        decreases left
      {
        var n :| n in left;
        PruneNext(n, now, left, before, others, start);
        left := left - {n};
      }
      assert before.Keys - left == before.Keys;
    }

    method PruneNext(n: Node, now: Time, ghost left: set<Node>, ghost before: map<Node, Handle>, ghost others: set<string>, ghost start: map<string, Session>)
      requires Valid() && clock == now && n in left && left <= before.Keys && Reads(start, now)
      requires Pruning(before, left, entries, others, abandoned, OverdueAll(start, now), now, cooldown)
      modifies this`entries, this`abandoned, controller.manager`sessions
      ensures Valid() && Reads(start, now)
      ensures Pruning(before, left - {n}, entries, others, abandoned, OverdueAll(start, now), now, cooldown)
    {
      ghost var middle := controller.manager.sessions;
      PruneStep(before, left, entries, others, abandoned, OverdueAll(start, now), now, cooldown, n);
      PruneOne(n, now);
      ReadAgain(start, middle, controller.manager.sessions, now);
    }

    /** startSpeed. A refused start is not recorded: `deferred` says that it may be tried again. */
    method StartSpeed(n: Node, attempt: Attempt, now: Time) returns (h: Handle, deferred: bool)
      requires Valid() && clock <= now && attempt.id !in controller.issued && attempt.id != ""
      modifies this`entries, this`abandoned, this`created, this`starts, this`clock, controller`issued, controller.manager
      ensures Valid() && clock == now && controller.issued <= old(controller.issued) + {attempt.id}
      ensures abandoned == old(abandoned) + GoneIds(old(entries), old(entries).Keys, old(Seen(now)))
      ensures var kept := Kept(old(entries), {}, old(Seen(now)), now, cooldown);
              if n in kept then
                // while a node's probe is kept, no other is started
                h == kept[n] && !deferred && entries == kept && created == old(created) && starts == old(starts)
              else if h.session == "" then
                h.startedAt == now && entries == kept && created == old(created) && starts == old(starts)
              else
                && h == Handle(attempt.id, now, "") && !deferred && entries == kept[n := h]
                && created == old(created) + {attempt.id} && starts == old(starts) + [Start(n, now, attempt.id)]
      ensures n !in Kept(old(entries), {}, old(Seen(now)), now, cooldown) && h.session == "" ==>
                deferred == (|Live(old(created), old(Seen(now)))| >= maxConcurrent || attempt.transient)
      ensures n !in Kept(old(entries), {}, old(Seen(now)), now, cooldown)
              && NewNames(old(controller.manager.Contents()), attempt.choice, attempt.jobId, attempt.nonce) ==>
                (h.session != "" <==> |Live(old(created), old(Seen(now)))| < maxConcurrent && Accepts(old(Seen(now)), attempt, now))
    {
      AdvanceKeepsCooldown(entries, starts, abandoned, clock, now, cooldown);
      clock := now;
      Prune(now);
      if n in entries {
        return entries[n], false;
      }
      h, deferred := StartFree(n, attempt, now);
    }

    /** The part of startSpeed for a node without a probe. */
    method StartFree(n: Node, attempt: Attempt, now: Time) returns (h: Handle, deferred: bool)
      requires Valid() && clock == now && n !in entries && attempt.id !in controller.issued && attempt.id != ""
      modifies this`entries, this`created, this`starts, controller`issued, controller.manager
      ensures Valid() && controller.issued <= old(controller.issued) + {attempt.id}
      ensures h.session == "" ==> h.startedAt == now && entries == old(entries) && created == old(created) && starts == old(starts)
      ensures h.session != "" ==>
                && h == Handle(attempt.id, now, "") && !deferred && entries == old(entries)[n := h]
                && created == old(created) + {attempt.id} && starts == old(starts) + [Start(n, now, attempt.id)]
      ensures h.session == "" ==> deferred == (|Live(old(created), old(Seen(now)))| >= maxConcurrent || attempt.transient)
      ensures NewNames(old(controller.manager.Contents()), attempt.choice, attempt.jobId, attempt.nonce) ==>
                (h.session != "" <==> |Live(old(created), old(Seen(now)))| < maxConcurrent && Accepts(old(Seen(now)), attempt, now))
    {
      var active := Active(now);
      if active >= maxConcurrent {
        return Handle("", now, "automation capacity is busy"), true;
      }
      var ok := StartNew(n, attempt, now);
      if !ok {
        return Handle("", now, "refused"), attempt.transient;
      }
      return entries[n], false;
    }

    /** resumeDeferred: what was refused for now and is due is tried again, in any order. */
    method ResumeDeferred(waiting: map<Node, Waiting>, attempts: map<Node, Attempt>, pause: nat, now: Time) returns (resumed: map<Node, Waiting>)
      requires Valid() && clock <= now && waiting.Keys <= attempts.Keys
      requires FreshNames(attempts, attempts.Keys, controller.issued)
      modifies this`entries, this`abandoned, this`created, this`starts, this`clock, controller`issued, controller.manager
      ensures Valid() && clock <= now && IssuedOnly(attempts, old(controller.issued), controller.issued)
      ensures Resumed(waiting, {}, resumed, pause, now)
      ensures old(starts) <= starts && OnlyDue(waiting, starts, |old(starts)|, now)
    {
      resumed := waiting;
      ghost var log, issued := starts, controller.issued;
      var left := DueNodes(waiting, now);
      ResumingStarts(waiting, attempts, pause, now, log, issued);
      while left != {}
        invariant Valid() && clock <= now
        invariant Resuming(waiting, attempts, left, resumed, pause, now, log, starts, issued, controller.issued)
        decreases left
      {
        var n :| n in left;
        ghost var log', issued' := starts, controller.issued;
        var w := ResumeOne(n, attempts[n], pause, now);
        ResumingStep(waiting, attempts, left, resumed, pause, now, log, log', starts, issued, issued', controller.issued, n, w);
        left := left - {n};
        resumed := resumed[n := w];
      }
    }

    method ResumeOne(n: Node, attempt: Attempt, pause: nat, now: Time) returns (w: Waiting)
      requires Valid() && clock <= now && attempt.id !in controller.issued && attempt.id != ""
      modifies this`entries, this`abandoned, this`created, this`starts, this`clock, controller`issued, controller.manager
      ensures Valid() && clock == now && controller.issued <= old(controller.issued) + {attempt.id}
      ensures !Due(w, now) || pause == 0
      ensures starts == old(starts) || starts == old(starts) + [Start(n, now, attempt.id)]
    {
      var h, deferred := StartSpeed(n, attempt, now);
      return Waiting(h, if deferred then Some(now + pause) else None);
    }

    /** The controller starts a session for this attempt. */
    ghost predicate Accepts(sessions: map<string, Session>, attempt: Attempt, now: Time) {
      Takes(sessions, controller.manager.config, attempt.request, attempt.choice, attempt.id, now)
    }

    method StartNew(n: Node, attempt: Attempt, now: Time) returns (ok: bool)
      requires Valid() && clock == now && n !in entries && attempt.id !in controller.issued && attempt.id != ""
      requires |Live(created, controller.manager.sessions)| < maxConcurrent
      modifies this`entries, this`created, this`starts, controller`issued, controller.manager
      ensures Valid() && controller.issued == old(controller.issued) + {attempt.id}
      ensures ok ==> entries == old(entries)[n := Handle(attempt.id, now, "")] && created == old(created) + {attempt.id} && starts == old(starts) + [Start(n, now, attempt.id)]
      ensures !ok ==> entries == old(entries) && created == old(created) && starts == old(starts)
      ensures NewNames(old(controller.manager.Contents()), attempt.choice, attempt.jobId, attempt.nonce) ==> (ok <==> Accepts(old(Seen(now)), attempt, now))
    {
      var session := CreateSession(attempt, now);
      if session.None? {
        return false;
      }
      EnterSpeed(n, session.value, now);
      return true;
    }

    method EnterSpeed(n: Node, session: string, now: Time)
      requires Valid() && clock == now && n !in entries
      requires session != "" && session !in created && session in controller.issued && |Live(created, controller.manager.sessions)| < maxConcurrent
      modifies this`entries, this`created, this`starts
      ensures Valid() && entries == old(entries)[n := Handle(session, now, "")]
      ensures created == old(created) + {session} && starts == old(starts) + [Start(n, now, session)]
    {
      var h := Handle(session, now, "");
      AddSpeedKeepsBooks(Contents(), controller.manager.sessions, maxConcurrent, n, h);
      StartKeepsCooldown(entries, starts, abandoned, clock, cooldown, n, h);
      entries := entries[n := h];
      created := created + {session};
      starts := starts + [Start(n, now, session)];
    }

    /** A new session the books do not know yet. */
    method CreateSession(attempt: Attempt, now: Time) returns (session: Option<string>)
      requires Valid() && attempt.id !in controller.issued
      modifies controller`issued, controller.manager
      ensures Valid() && controller.issued == old(controller.issued) + {attempt.id}
      ensures |Live(created, controller.manager.sessions)| <= |Live(created, old(controller.manager.sessions))|
      ensures Evolved(old(controller.manager.sessions), old(controller.issued), controller.manager.sessions)
      ensures session == None || session == Some(attempt.id)
      ensures NewNames(old(controller.manager.Contents()), attempt.choice, attempt.jobId, attempt.nonce) ==> (session.Some? <==> Accepts(old(Seen(now)), attempt, now))
      ensures attempt.id !in created
    {
      ghost var before, issued := controller.manager.sessions, controller.issued;
      session := controller.CreateAutomatic(attempt.request, attempt.choice, attempt.id, attempt.jobId, attempt.nonce, now);
      EvolutionKeepsBooks(Contents(), before, issued, controller.manager.sessions, maxConcurrent);
      Fewer(Live(created, controller.manager.sessions), Live(created, before));
    }

    // ----- availability probes -----

    /** availabilityNeedsProbeLocked. A session still in flight is never given up. */
    method MustAsk(e: Entry, f: Failure, now: Time) returns (b: bool)
      requires Valid()
      modifies controller.manager`sessions
      ensures Valid() && Reads(old(controller.manager.sessions), now)
      ensures b == NeedsProbe(e, ViewOf(old(Seen(now)), e.handle.session), f.kind, f.since, now, cooldown)
      ensures b ==> Free(controller.manager.sessions, e.handle.session)
    {
      if e.handle.session == "" {
        return true;
      }
      var answered := e.final.Some?;
      var view := Look(e.handle.session, now);
      if view.Some? {
        if !view.value.terminal {
          return false;
        }
        answered := view.value.observations > 0;
      }
      if !answered {
        return true;
      }
      if e.kind != f.kind {
        return true;
      }
      if e.since == f.since {
        return false;
      }
      return now - e.handle.startedAt >= cooldown;
    }

    /** startAvailability. An entry that answered for this very episode is left alone. */
    method StartAvailability(f: Failure, attempt: Attempt, now: Time)
      requires Valid() && attempt.id !in controller.issued && attempt.id != ""
      modifies this`availability, this`created, this`probes, controller`issued, controller.manager
      ensures Valid() && controller.issued <= old(controller.issued) + {attempt.id}
      ensures if f.node in old(availability) && !NeedsProbe(old(availability)[f.node], ViewOf(old(Seen(now)), old(availability)[f.node].handle.session), f.kind, f.since, now, cooldown)
              then availability == old(availability) && probes == old(probes) && created == old(created)
              else AskedOnce(f, attempt, now, old(availability), old(probes), old(created))
                   && (NewNames(old(controller.manager.Contents()), attempt.choice, attempt.jobId, attempt.nonce) ==>
                         (availability[f.node].handle.session != "" <==> |Live(old(created), old(Seen(now)))| < maxConcurrent && Accepts(old(Seen(now)), attempt, now)))
      // a probe in flight answers for every episode; one that ended without an answer for none; and one that
      // answered for its own episode, and while it is young for every other one of the same kind
      ensures f.node in old(availability) && IsInFlight(old(Seen(now)), old(availability)[f.node].handle.session) && old(availability)[f.node].handle.session != "" ==>
                availability == old(availability) && probes == old(probes)
      ensures f.node in old(availability) && HasAnswer(old(Seen(now)), old(availability)[f.node]) && old(availability)[f.node].kind == f.kind
              && (old(availability)[f.node].since == f.since || now < old(availability)[f.node].handle.startedAt + cooldown) ==>
                availability == old(availability) && probes == old(probes)
      ensures f.node !in old(availability)
              || (Free(old(Seen(now)), old(availability)[f.node].handle.session)
                  && (|| !HasAnswer(old(Seen(now)), old(availability)[f.node]) || old(availability)[f.node].kind != f.kind
                      || (old(availability)[f.node].since != f.since && now >= old(availability)[f.node].handle.startedAt + cooldown))) ==>
                AskedOnce(f, attempt, now, old(availability), old(probes), old(created))
      ensures Tried(f, attempt.id, now, old(availability), old(probes), availability, probes)
      ensures f.node in old(availability) && AnswersFor(old(availability)[f.node], f) ==> availability == old(availability) && probes == old(probes)
    {
      if f.node in availability {
        var e := availability[f.node];
        AnsweredNeedsNone(Contents(), controller.manager.Contents(), controller.issued, maxConcurrent, f, now, cooldown);
        var ask := MustAsk(e, f, now);
        if !ask {
          return;
        }
      }
      Ask(f, attempt, now);
    }

    /** One more entry for this failure, and one more probe if an agent took it. */
    ghost predicate AskedOnce(f: Failure, attempt: Attempt, now: Time, before: map<Node, Entry>, log: seq<Start>, ids: set<string>)
      reads this
    {
      && f.node in availability && availability == before[f.node := availability[f.node]] && Asked(availability[f.node], f, attempt, now)
      && (if availability[f.node].handle.session == "" then probes == log && created == ids
          else probes == log + [Start(f.node, now, attempt.id)] && created == ids + {attempt.id})
    }

    /** The rest of startAvailability: one more probe, or a note of why there is none. */
    method Ask(f: Failure, attempt: Attempt, now: Time)
      requires Valid() && Replaceable(Contents(), controller.manager.sessions, f.node) && attempt.id !in controller.issued && attempt.id != ""
      modifies this`availability, this`created, this`probes, controller`issued, controller.manager
      ensures Valid() && controller.issued <= old(controller.issued) + {attempt.id}
      ensures AskedOnce(f, attempt, now, old(availability), old(probes), old(created))
      ensures NewNames(old(controller.manager.Contents()), attempt.choice, attempt.jobId, attempt.nonce) ==>
                (availability[f.node].handle.session != "" <==> |Live(old(created), old(Seen(now)))| < maxConcurrent && Accepts(old(Seen(now)), attempt, now))
    {
      ghost var before := controller.manager.sessions;
      var active := Active(now);
      if active >= maxConcurrent {
        StaysReplaceable(Contents(), before, controller.manager.sessions, f.node, now);
        Note(f, Handle("", now, "automation capacity is busy"));
        return;
      }
      StaysReplaceable(Contents(), before, controller.manager.sessions, f.node, now);
      AskAgent(f, attempt, now);
    }

    method AskAgent(f: Failure, attempt: Attempt, now: Time)
      requires Valid() && Replaceable(Contents(), controller.manager.sessions, f.node) && attempt.id !in controller.issued && attempt.id != ""
      requires |Live(created, controller.manager.sessions)| < maxConcurrent
      modifies this`availability, this`created, this`probes, controller`issued, controller.manager
      ensures Valid() && controller.issued == old(controller.issued) + {attempt.id}
      ensures AskedOnce(f, attempt, now, old(availability), old(probes), old(created))
      ensures NewNames(old(controller.manager.Contents()), attempt.choice, attempt.jobId, attempt.nonce) ==>
                (availability[f.node].handle.session != "" <==> Accepts(old(Seen(now)), attempt, now))
    {
      ghost var before, issued := controller.manager.sessions, controller.issued;
      var session := CreateSession(attempt, now);
      EvolvedReplaceable(Contents(), before, issued, controller.manager.sessions, maxConcurrent, f.node);
      if session.None? {
        Note(f, Handle("", now, "refused"));
        return;
      }
      Enter(f, session.value, now);
    }

    method Enter(f: Failure, session: string, now: Time)
      requires Valid() && Replaceable(Contents(), controller.manager.sessions, f.node)
      requires session != "" && session !in created && session in controller.issued && |Live(created, controller.manager.sessions)| < maxConcurrent
      modifies this`availability, this`created, this`probes
      ensures Valid() && availability == old(availability)[f.node := Entry(f.kind, f.since, Handle(session, now, ""), None, false)]
      ensures probes == old(probes) + [Start(f.node, now, session)] && created == old(created) + {session}
    {
      var e := Entry(f.kind, f.since, Handle(session, now, ""), None, false);
      AddAvailabilityKeepsBooks(Contents(), controller.manager.sessions, maxConcurrent, f.node, e);
      availability := availability[f.node := e];
      created := created + {session};
      probes := probes + [Start(f.node, now, session)];
    }

    method Note(f: Failure, h: Handle)
      requires Valid() && Replaceable(Contents(), controller.manager.sessions, f.node) && h.session == ""
      modifies this`availability
      ensures Valid() && availability == old(availability)[f.node := Entry(f.kind, f.since, h, None, false)]
    {
      var e := Entry(f.kind, f.since, h, None, false);
      RefuseAvailabilityKeepsBooks(Contents(), controller.manager.sessions, maxConcurrent, f.node, e);
      availability := availability[f.node := e];
    }

    /** annotation, as far as it decides whether an answer is final. */
    method Annotate(session: string, now: Time) returns (a: Annotation)
      requires Valid()
      modifies controller.manager`sessions
      ensures Valid() && Reads(old(controller.manager.sessions), now)
      ensures a == AnnotationOf(session, ViewOf(old(Seen(now)), session), judge)
      ensures a.Verdict? ==> session != "" && session in controller.manager.sessions && controller.manager.sessions[session].observations != []
    {
      if session == "" {
        return Unavailable;
      }
      var view := Look(session, now);
      if view.None? {
        return Unavailable;
      }
      if view.value.observations == 0 {
        return if view.value.terminal then Unavailable else Underway;
      }
      return Verdict(judge(session));
    }

    /** finalAvailabilityLocked and the journal, for one entry. */
    method HarvestOne(n: Node, now: Time)
      requires Valid() && n in availability
      modifies this`availability, this`journal, controller.manager`sessions
      ensures Valid() && Reads(old(controller.manager.sessions), now)
      ensures n in availability && availability == old(availability)[n := availability[n]]
      ensures Harvested(old(availability)[n], ViewOf(old(Seen(now)), old(availability)[n].handle.session), judge, availability[n])
      ensures journal == old(journal) + if old(availability)[n].journaled == availability[n].journaled then [] else [RecordOf(n, availability[n])]
    {
      var e := availability[n];
      if e.journaled || e.handle.session == "" {
        return;
      }
      if e.final.Some? {
        Settle(n, e.final);
        return;
      }
      HarvestRead(n, now);
    }

    /** The part of finalAvailabilityLocked that reads the session. */
    method HarvestRead(n: Node, now: Time)
      requires Valid() && n in availability && !availability[n].journaled && availability[n].final.None? && availability[n].handle.session != ""
      modifies this`availability, this`journal, controller.manager`sessions
      ensures Valid() && Reads(old(controller.manager.sessions), now)
      ensures n in availability && availability == old(availability)[n := availability[n]]
      ensures Harvested(old(availability)[n], ViewOf(old(Seen(now)), old(availability)[n].handle.session), judge, availability[n])
      ensures journal == old(journal) + if availability[n].journaled then [RecordOf(n, availability[n])] else []
    {
      var a := FinalAnnotation(availability[n].handle.session, now);
      if a.Some? {
        Settle(n, if a.value.Verdict? then Some(a.value.text) else None);
      } else {
        NothingAppended(journal);
        NothingReplaced(availability, n);
      }
    }

    /** None while the session may still answer, and when there is no such session. */
    method FinalAnnotation(session: string, now: Time) returns (a: Option<Annotation>)
      requires Valid() && session != ""
      modifies controller.manager`sessions
      ensures Valid() && Reads(old(controller.manager.sessions), now)
      ensures var view := ViewOf(old(Seen(now)), session);
              a == if view.None? || (view.value.observations == 0 && !view.value.terminal) then None
                   else Some(if view.value.observations > 0 then Verdict(judge(session)) else Unavailable)
      ensures a.Some? && a.value.Verdict? ==> session in controller.manager.sessions && controller.manager.sessions[session].observations != []
    {
      var view := Look(session, now);
      if view.None? {
        return None;
      }
      var annotation := Annotate(session, now);
      return if annotation.Underway? then None else Some(annotation);
    }

    /** Write an entry's verdict to the journal and mark it. */
    method Settle(n: Node, final: Option<string>)
      requires Valid() && n in availability && !availability[n].journaled && availability[n].handle.session != ""
      requires final.Some? ==> availability[n].handle.session in controller.manager.sessions ==>
                 controller.manager.sessions[availability[n].handle.session].observations != []
      modifies this`availability, this`journal
      ensures Valid() && availability == old(availability)[n := old(availability)[n].(final := final, journaled := true)]
      ensures journal == old(journal) + [RecordOf(n, availability[n])]
    {
      var e := availability[n].(final := final, journaled := true);
      SettleKeepsBooks(Contents(), controller.manager.sessions, maxConcurrent, n, e, RecordOf(n, e));
      availability := availability[n := e];
      journal := journal + [RecordOf(n, e)];
    }

    /** harvestAvailabilityLocked: entries are visited in any order. */
    method Harvest(now: Time)
      requires Valid()
      modifies this`availability, this`journal, controller.manager`sessions
      ensures Valid() && Reads(old(controller.manager.sessions), now)
      ensures availability.Keys == old(availability).Keys
      ensures forall n :: n in availability ==> Harvested(old(availability)[n], ViewOf(old(Seen(now)), old(availability)[n].handle.session), judge, availability[n])
      ensures old(journal) <= journal && Written(old(availability), availability, journal[|old(journal)|..])
    {
      ghost var start, before, log := controller.manager.sessions, availability, journal;
      ghost var records: seq<Record> := [];
      var left := availability.Keys;
      while left != {}
        invariant Valid() && Reads(start, now) && left <= before.Keys
        invariant journal == log + records && Harvesting(before, left, availability, records, OverdueAll(start, now), judge)
        decreases left
      {
        var n :| n in left;
        records := HarvestNext(n, now, records, left, before, start, log);
        left := left - {n};
      }
      Appended(log, records);
    }

    method HarvestNext(n: Node, now: Time, ghost records: seq<Record>, ghost left: set<Node>, ghost before: map<Node, Entry>, ghost start: map<string, Session>, ghost log: seq<Record>)
      returns (ghost more: seq<Record>)
      requires Valid() && Reads(start, now) && n in left && left <= before.Keys
      requires journal == log + records && Harvesting(before, left, availability, records, OverdueAll(start, now), judge)
      modifies this`availability, this`journal, controller.manager`sessions
      ensures Valid() && Reads(start, now)
      ensures journal == log + more && Harvesting(before, left - {n}, availability, more, OverdueAll(start, now), judge)
    {
      ghost var middle := availability;
      ghost var written := HarvestWritten(n, now, start);
      more := records + written;
      Appending(log, records, written);
      HarvestStep(before, left, middle, availability, records, written, OverdueAll(start, now), judge, n);
    }

    /** Seen from the start of the harvest: reading again at one time shows the same sessions. */
    method HarvestWritten(n: Node, now: Time, ghost start: map<string, Session>) returns (ghost written: seq<Record>)
      requires Valid() && Reads(start, now) && n in availability
      modifies this`availability, this`journal, controller.manager`sessions
      ensures Valid() && Reads(start, now)
      ensures n in availability && availability == old(availability)[n := availability[n]]
      ensures Harvested(old(availability)[n], ViewOf(OverdueAll(start, now), old(availability)[n].handle.session), judge, availability[n])
      ensures written == if old(availability)[n].journaled == availability[n].journaled then [] else [RecordOf(n, availability[n])]
      ensures journal == old(journal) + written
    {
      ghost var middle, sessions := availability, controller.manager.sessions;
      HarvestOne(n, now);
      ReadAgain(start, sessions, controller.manager.sessions, now);
      written := if middle[n].journaled == availability[n].journaled then [] else [RecordOf(n, availability[n])];
    }

    /** pruneAvailabilityLocked for one node that is no longer failing. */
    method PruneAvailabilityOne(n: Node, now: Time)
      requires Valid() && n in availability
      modifies this`availability, this`journal, controller.manager`sessions
      ensures Valid() && Reads(old(controller.manager.sessions), now)
      ensures availability == if Remains(old(Seen(now)), old(availability)[n], now, cooldown) then old(availability) else old(availability) - {n}
      ensures journal == old(journal) + if Unseen(old(availability)[n]) then [RecordOf(n, old(availability)[n])] else []
    {
      ghost var log := journal;
      if availability[n].handle.session != "" {
        PruneProbed(n, now);
        NothingAppended(log);
      } else {
        DropUnseen(n);
      }
    }

    /** A probe that is out, or was asked for less than a cooldown ago, is not forgotten. */
    method PruneProbed(n: Node, now: Time)
      requires Valid() && n in availability && availability[n].handle.session != ""
      modifies this`availability, controller.manager`sessions
      ensures Valid() && Reads(old(controller.manager.sessions), now)
      ensures availability == if Remains(old(Seen(now)), old(availability)[n], now, cooldown) then old(availability) else old(availability) - {n}
    {
      var kept := StillNeeded(availability[n], now);
      if !kept {
        DropAvailability(n);
      }
    }

    method StillNeeded(e: Entry, now: Time) returns (b: bool)
      requires Valid() && e.handle.session != ""
      modifies controller.manager`sessions
      ensures Valid() && Reads(old(controller.manager.sessions), now)
      ensures b == Remains(old(Seen(now)), e, now, cooldown) && (!b ==> Free(controller.manager.sessions, e.handle.session))
    {
      var out := InFlight(e.handle, now);
      return out || now - e.handle.startedAt < cooldown;
    }

    /** Nobody could look at this failure, which is written down once. */
    method DropUnseen(n: Node)
      requires Valid() && n in availability && availability[n].handle.session == ""
      modifies this`availability, this`journal
      ensures Valid() && availability == old(availability) - {n}
      ensures journal == old(journal) + if old(availability)[n].journaled then [] else [RecordOf(n, old(availability)[n])]
    {
      var e := availability[n];
      if !e.journaled {
        NobodyLookedKeepsBooks(Contents(), controller.manager.sessions, maxConcurrent, RecordOf(n, e));
        journal := journal + [RecordOf(n, e)];
      }
      DropAvailability(n);
    }

    method DropAvailability(n: Node)
      requires Valid() && n in availability && Free(controller.manager.sessions, availability[n].handle.session)
      modifies this`availability
      ensures Valid() && availability == old(availability) - {n}
    {
      DropAvailabilityKeepsBooks(Contents(), controller.manager.sessions, maxConcurrent, n);
      availability := availability - {n};
    }

    /** pruneAvailabilityLocked: entries of nodes that still fail stay. */
    method PruneAvailability(now: Time, current: set<Node>)
      requires Valid()
      modifies this`availability, this`journal, controller.manager`sessions
      ensures Valid() && Reads(old(controller.manager.sessions), now)
      ensures availability == Remaining(old(availability), current, old(Seen(now)), now, cooldown)
      // of the nodes that do not fail any more the young ones stay, and those in flight
      ensures forall n :: n in old(availability) && n !in current ==>
                var h := old(availability)[n].handle;
                (n in availability <==> h.session != "" && (IsInFlight(old(Seen(now)), h.session) || now < h.startedAt + cooldown))
      ensures old(journal) <= journal && Dropped(old(availability), availability, journal[|old(journal)|..])
    {
      ghost var start, before, log := controller.manager.sessions, availability, journal;
      ghost var records: seq<Record> := [];
      var left := availability.Keys;
      NothingPruned(before, current, OverdueAll(start, now), now, cooldown);
      while left != {}
        invariant Valid() && Reads(start, now) && left <= before.Keys
        invariant journal == log + records && Pruned(before, left, current, availability, records, OverdueAll(start, now), now, cooldown)
        decreases left
      {
        var n :| n in left;
        records := PruneAvailabilityNext(n, now, current, records, left, before, start, log);
        left := left - {n};
      }
      AllPruned(before, current, availability, records, OverdueAll(start, now), now, cooldown);
      Appended(log, records);
    }

    method PruneAvailabilityNext(n: Node, now: Time, current: set<Node>, ghost records: seq<Record>, ghost left: set<Node>, ghost before: map<Node, Entry>, ghost start: map<string, Session>, ghost log: seq<Record>)
      returns (ghost more: seq<Record>)
      requires Valid() && Reads(start, now) && n in left && left <= before.Keys
      requires journal == log + records && Pruned(before, left, current, availability, records, OverdueAll(start, now), now, cooldown)
      modifies this`availability, this`journal, controller.manager`sessions
      ensures Valid() && Reads(start, now)
      ensures journal == log + more && Pruned(before, left - {n}, current, availability, more, OverdueAll(start, now), now, cooldown)
    {
      PrunedStep(before, left, current, availability, records, OverdueAll(start, now), now, cooldown, n);
      more := records;
      if n !in current {
        ghost var written := PruneWritten(n, now, start);
        more := records + written;
        Appending(log, records, written);
      }
    }

    method PruneWritten(n: Node, now: Time, ghost start: map<string, Session>) returns (ghost written: seq<Record>)
      requires Valid() && Reads(start, now) && n in availability
      modifies this`availability, this`journal, controller.manager`sessions
      ensures Valid() && Reads(start, now)
      ensures availability == if Remains(OverdueAll(start, now), old(availability)[n], now, cooldown) then old(availability) else old(availability) - {n}
      ensures written == if Unseen(old(availability)[n]) then [RecordOf(n, old(availability)[n])] else []
      ensures journal == old(journal) + written
    {
      ghost var sessions, e := controller.manager.sessions, availability[n];
      PruneAvailabilityOne(n, now);
      ReadAgain(start, sessions, controller.manager.sessions, now);
      written := if Unseen(e) then [RecordOf(n, e)] else [];
    }

    /** AvailabilityAnnotations for one node: a verdict read here is kept and journaled once. */
    method AvailabilityAnnotation(n: Node, now: Time) returns (a: Option<Annotation>)
      requires Valid()
      modifies this`availability, this`journal, controller.manager`sessions
      ensures Valid() && Reads(old(controller.manager.sessions), now)
      ensures n !in old(availability) ==> a == None && availability == old(availability) && journal == old(journal)
      ensures n in old(availability) ==>
                var e := old(availability)[n];
                && a == Some(if e.final.Some? then Verdict(e.final.value) else AnnotationOf(e.handle.session, ViewOf(old(Seen(now)), e.handle.session), judge))
                && if e.final.None? && a.value.Verdict? then
                     && availability == old(availability)[n := e.(final := Some(a.value.text), journaled := true)]
                     && journal == old(journal) + if e.journaled then [] else [RecordOf(n, availability[n])]
                   else
                     availability == old(availability) && journal == old(journal)
    {
      if n !in availability {
        return None;
      }
      var e := availability[n];
      if e.final.Some? {
        return Some(Verdict(e.final.value));
      }
      var found := Annotate(e.handle.session, now);
      if found.Verdict? {
        KeepVerdict(n, found.text);
      }
      return Some(found);
    }

    method KeepVerdict(n: Node, verdict: string)
      requires Valid() && n in availability && availability[n].handle.session != "" && availability[n].handle.session in controller.manager.sessions
      requires controller.manager.sessions[availability[n].handle.session].observations != []
      modifies this`availability, this`journal
      ensures Valid() && availability == old(availability)[n := old(availability)[n].(final := Some(verdict), journaled := true)]
      ensures journal == old(journal) + if old(availability)[n].journaled then [] else [RecordOf(n, availability[n])]
    {
      if availability[n].journaled {
        NothingAppended(journal);
        Remember(n, verdict);
      } else {
        Settle(n, Some(verdict));
      }
    }

    method Remember(n: Node, verdict: string)
      requires Valid() && n in availability && availability[n].journaled && availability[n].handle.session != ""
      requires availability[n].handle.session in controller.manager.sessions ==>
                 controller.manager.sessions[availability[n].handle.session].observations != []
      modifies this`availability
      ensures Valid() && availability == old(availability)[n := old(availability)[n].(final := Some(verdict))]
    {
      var e := availability[n].(final := Some(verdict));
      RememberKeepsBooks(Contents(), controller.manager.sessions, maxConcurrent, n, e);
      availability := availability[n := e];
    }

    /** availabilityCandidates: the first report of each node counts, the oldest failure comes first. */
    static method Candidates(failures: seq<Failure>, ours: set<Node>) returns (candidates: seq<Failure>, current: set<Node>)
      ensures current == Reported(failures)
      ensures forall c :: c in candidates ==> IsCounted(failures, ours, c)
      ensures forall i :: Counts(failures, ours, i) ==> failures[i] in candidates
      ensures forall i, j :: 0 <= i < j < |candidates| ==> candidates[i].node != candidates[j].node
      ensures Ascending(candidates, Older()) && forall i, j :: 0 <= i < j < |candidates| ==> candidates[i].since <= candidates[j].since
    {
      candidates, current := [], {};
      for i := 0 to |failures|
        invariant Chosen(failures, ours, i, candidates, current)
      {
        var f := failures[i];
        ChosenStep(failures, ours, i, candidates, current);
        if f.node != "" && f.node !in current {
          current := current + {f.node};
          if f.node in ours {
            candidates := candidates + [f];
          }
        }
      }
      assert failures[..|failures|] == failures;
      candidates := SortFailures(candidates);
    }

    /** StartAvailabilityDiagnostics. While the check keeps reporting an episode that was answered,
        no further probe of that node starts; every other failing node of a watched kind gets an
        entry, and a recovered node loses its entry unless it is young or in flight. */
    method StartAvailabilityDiagnostics(failures: seq<Failure>, ours: set<Node>, enabled: set<Kind>, attempts: map<Node, Attempt>, now: Time)
      requires Valid()
      requires forall f :: f in failures ==> f.node in attempts
      requires forall n :: n in attempts ==> attempts[n].id !in controller.issued && attempts[n].id != ""
      requires forall n, m :: n in attempts && m in attempts && n != m ==> attempts[n].id != attempts[m].id
      modifies this`availability, this`journal, this`created, this`probes, controller`issued, controller.manager
      ensures Valid() && controller.issued <= old(controller.issued) + Ids(attempts)
      ensures old(probes) <= probes
      ensures Quiet(old(availability), failures, availability, probes[|old(probes)|..])
      ensures forall i :: Counts(failures, ours, i) && failures[i].kind in enabled ==> failures[i].node in availability
      ensures forall n :: n in availability && n !in Reported(failures) ==>
                n in old(availability) && Remains(old(Seen(now)), old(availability)[n], now, cooldown)
      ensures forall n :: n in old(availability) && (n in Reported(failures) || Remains(old(Seen(now)), old(availability)[n], now, cooldown)) ==>
                n in availability
    {
      var candidates := Settled(failures, ours, now);
      ghost var log, middle := probes, availability;
      StartAll(candidates, enabled, attempts, now, old(availability), failures);
      assert probes[|log|..] == probes[|old(probes)|..];
      forall i | Counts(failures, ours, i) && failures[i].kind in enabled ensures failures[i].node in availability {
        assert failures[i] in candidates;
      }
      forall n | n in availability && n !in Reported(failures) ensures n in middle {
        Unreported(failures, candidates, enabled, middle.Keys, availability.Keys, n);
      }
    }

    /** The first half of a round: harvest, prune, and choose the candidates. */
    method Settled(failures: seq<Failure>, ours: set<Node>, now: Time) returns (candidates: seq<Failure>)
      requires Valid()
      modifies this`availability, this`journal, controller.manager`sessions
      ensures Valid() && Quiet(old(availability), failures, availability, [])
      ensures forall c :: c in candidates ==> c in failures && c.node != ""
      ensures forall i :: Counts(failures, ours, i) ==> failures[i] in candidates
      ensures forall i, j :: 0 <= i < j < |candidates| ==> candidates[i].node != candidates[j].node
      ensures forall n :: n in availability <==>
                n in old(availability) && (n in Reported(failures) || Remains(old(Seen(now)), old(availability)[n], now, cooldown))
    {
      var current;
      candidates, current := Candidates(failures, ours);
      Harvest(now);
      ghost var harvested := availability;
      PruneAvailability(now, current);
      PrunedIsQuiet(old(availability), harvested, availability, failures, current);
    }

    method StartAll(candidates: seq<Failure>, enabled: set<Kind>, attempts: map<Node, Attempt>, now: Time,
                    ghost before: map<Node, Entry>, ghost failures: seq<Failure>)
      requires Valid() && Quiet(before, failures, availability, [])
      requires forall c :: c in candidates ==> c in failures && c.node in attempts && attempts[c.node].id !in controller.issued && attempts[c.node].id != ""
      requires forall i, j :: 0 <= i < j < |candidates| ==> candidates[i].node != candidates[j].node
      requires forall n, m :: n in attempts && m in attempts && n != m ==> attempts[n].id != attempts[m].id
      modifies this`availability, this`created, this`probes, controller`issued, controller.manager
      ensures Valid() && controller.issued <= old(controller.issued) + Ids(attempts)
      ensures old(probes) <= probes
      ensures Quiet(before, failures, availability, probes[|old(probes)|..])
      ensures Entered(candidates, |candidates|, enabled, old(availability).Keys, availability.Keys)
    {
      for i := 0 to |candidates|
        invariant Valid() && old(probes) <= probes && controller.issued <= old(controller.issued) + Ids(attempts)
        invariant Unissued(candidates, i, attempts, controller.issued)
        invariant Quiet(before, failures, availability, probes[|old(probes)|..])
        invariant Entered(candidates, i, enabled, old(availability).Keys, availability.Keys)
      {
        var c := candidates[i];
        ghost var entries, issued := availability.Keys, controller.issued;
        if c.kind in enabled {
          StartOne(c, attempts[c.node], now, before, failures, |old(probes)|);
        }
        UnissuedStep(candidates, i, attempts, issued, controller.issued);
        EnteredStep(candidates, i, enabled, old(availability).Keys, entries, availability.Keys);
      }
    }

    method StartOne(f: Failure, attempt: Attempt, now: Time, ghost before: map<Node, Entry>, ghost failures: seq<Failure>, ghost mark: nat)
      requires Valid() && attempt.id !in controller.issued && attempt.id != "" && f in failures
      requires mark <= |probes| && Quiet(before, failures, availability, probes[mark..])
      modifies this`availability, this`created, this`probes, controller`issued, controller.manager
      ensures Valid() && controller.issued <= old(controller.issued) + {attempt.id}
      ensures old(probes) <= probes && Quiet(before, failures, availability, probes[mark..])
      ensures availability.Keys == old(availability).Keys + {f.node}
    {
      ghost var entries, log := availability, probes;
      StartAvailability(f, attempt, now);
      TriedIsQuiet(before, failures, entries, log, f, attempt.id, now, availability, probes, mark);
    }
  }

  /** The first candidates have entries, and no others are new. */
  predicate Entered(candidates: seq<Failure>, i: nat, enabled: set<Kind>, before: set<Node>, after: set<Node>)
    requires i <= |candidates|
  {
    && before <= after <= before + (set j | 0 <= j < i :: candidates[j].node)
    && forall j :: 0 <= j < i && candidates[j].kind in enabled ==> candidates[j].node in after
  }

  lemma EnteredStep(candidates: seq<Failure>, i: nat, enabled: set<Kind>, before: set<Node>, middle: set<Node>, after: set<Node>)
    requires i < |candidates| && Entered(candidates, i, enabled, before, middle)
    requires after == if candidates[i].kind in enabled then middle + {candidates[i].node} else middle
    ensures Entered(candidates, i + 1, enabled, before, after)
  {
  }

  /** The names for these candidates and all later ones have not been given out. */
  predicate Unissued(candidates: seq<Failure>, i: nat, attempts: map<Node, Attempt>, issued: set<string>)
    requires forall c :: c in candidates ==> c.node in attempts
  {
    forall j :: i <= j < |candidates| ==> attempts[candidates[j].node].id !in issued
  }

  lemma UnissuedStep(candidates: seq<Failure>, i: nat, attempts: map<Node, Attempt>, before: set<string>, after: set<string>)
    requires forall c :: c in candidates ==> c.node in attempts
    requires forall i, j :: 0 <= i < j < |candidates| ==> candidates[i].node != candidates[j].node
    requires forall n, m :: n in attempts && m in attempts && n != m ==> attempts[n].id != attempts[m].id
    requires i < |candidates| && Unissued(candidates, i, attempts, before) && after <= before + {attempts[candidates[i].node].id}
    ensures Unissued(candidates, i + 1, attempts, after)
  {
  }

  lemma Unreported(failures: seq<Failure>, candidates: seq<Failure>, enabled: set<Kind>, before: set<Node>, after: set<Node>, n: Node)
    requires forall c :: c in candidates ==> c in failures && c.node != ""
    requires Entered(candidates, |candidates|, enabled, before, after) && n in after && n !in Reported(failures)
    ensures n in before
  {
    forall j | 0 <= j < |candidates| ensures candidates[j].node != n {
      assert candidates[j] in candidates;
      var i :| 0 <= i < |failures| && failures[i] == candidates[j];
      assert failures[i].node in Reported(failures);
    }
  }

  /** No two handles share a session. */
  ghost predicate Unshared(handles: map<Node, Handle>) {
    forall a, b {:trigger Apart(handles[a], handles[b])} :: a in handles && b in handles && a != b ==> Apart(handles[a], handles[b])
  }

  /** The sessions of these handles that are in flight. */
  function Counted(handles: map<Node, Handle>, done: set<Node>, sessions: map<string, Session>): set<string> {
    set n | n in done && n in handles && !Free(sessions, handles[n].session) :: handles[n].session
  }

  lemma CountedOneMore(handles: map<Node, Handle>, done: set<Node>, sessions: map<string, Session>, a: Node)
    requires Unshared(handles) && a in handles && a !in done
    ensures var id := handles[a].session;
            && Counted(handles, done + {a}, sessions) == Counted(handles, done, sessions) + (if Free(sessions, id) then {} else {id})
            && (!Free(sessions, id) ==> id !in Counted(handles, done, sessions))
  {
    forall b | b in done && b in handles ensures Apart(handles[a], handles[b]) {
    }
    forall id | id in Counted(handles, done, sessions) ensures id in Counted(handles, done + {a}, sessions) {
      var n :| n in done && n in handles && !Free(sessions, handles[n].session) && handles[n].session == id;
      assert n in done + {a};
    }
    assert a in done + {a};
  }

  /** So many of the handles in `done` are in flight, and reading them made no difference to that. */
  ghost predicate Tally(handles: map<Node, Handle>, done: set<Node>, n: nat, seen: map<string, Session>, sessions: map<string, Session>) {
    n == |Counted(handles, done, seen)| && forall a :: a in done && a in handles ==> Free(sessions, handles[a].session) == Free(seen, handles[a].session)
  }

  lemma TallyNothing(handles: map<Node, Handle>, seen: map<string, Session>, sessions: map<string, Session>)
    ensures Tally(handles, {}, 0, seen, sessions)
  {
  }

  predicate Split(done: set<Node>, left: set<Node>, all: set<Node>) {
    done !! left && done + left == all
  }

  lemma SplitStep(done: set<Node>, left: set<Node>, all: set<Node>, a: Node)
    requires Split(done, left, all) && a in left
    ensures Split(done + {a}, left - {a}, all) && a in all && a !in done
  {
  }

  lemma TallyStep(handles: map<Node, Handle>, done: set<Node>, n: nat, seen: map<string, Session>,
                  before: map<string, Session>, after: map<string, Session>, a: Node, m: nat)
    requires Unshared(handles) && a in handles && a !in done && Tally(handles, done, n, seen, before) && (after == before || after == seen)
    requires Free(after, handles[a].session) == Free(seen, handles[a].session) && m == n + if Free(seen, handles[a].session) then 0 else 1
    ensures Tally(handles, done + {a}, m, seen, after)
  {
    CountedOneMore(handles, done, seen, a);
  }

  lemma CountsAgree(b: Books, max: nat, speed: nat, others: nat, seen: map<string, Session>, middle: map<string, Session>, end: map<string, Session>, now: Time)
    requires HeldInv(b, seen, max) && HeldInv(b, end, max)
    requires Tally(b.entries, b.entries.Keys, speed, seen, middle) && Tally(Handles(b.availability), Handles(b.availability).Keys, others, seen, end)
    requires OnlyRead(middle, end, now) && OverdueAll(middle, now) == seen
    ensures speed + others == |Live(b.created, seen)| == |Live(b.created, end)|
  {
    CountedIsLive(b, seen, max);
    CountedIsLive(b, end, max);
    SameCount(b.entries, end, seen);
    SameCount(Handles(b.availability), end, seen);
  }

  lemma SameCount(handles: map<Node, Handle>, a: map<string, Session>, b: map<string, Session>)
    requires forall n :: n in handles ==> Free(a, handles[n].session) == Free(b, handles[n].session)
    ensures Counted(handles, handles.Keys, a) == Counted(handles, handles.Keys, b)
  {
    assert forall n :: n in handles.Keys ==> n in handles;
  }

  function Handles(availability: map<Node, Entry>): map<Node, Handle> {
    map n | n in availability :: availability[n].handle
  }

  lemma HandlesAreUnshared(b: Books)
    requires OwnSessions(b)
    ensures Unshared(b.entries) && Unshared(Handles(b.availability))
  {
    var handles := Handles(b.availability);
    forall n, m | n in handles && m in handles && n != m ensures Apart(handles[n], handles[m]) {
      assert Apart(b.availability[n].handle, b.availability[m].handle);
    }
  }

  /** The two loops of activeLocked together count exactly the sessions in flight. */
  lemma CountedIsLive(b: Books, sessions: map<string, Session>, max: nat)
    requires HeldInv(b, sessions, max)
    ensures |Counted(b.entries, b.entries.Keys, sessions)| + |Counted(Handles(b.availability), Handles(b.availability).Keys, sessions)| == |Live(b.created, sessions)|
  {
    var handles := Handles(b.availability);
    var speed, others := Counted(b.entries, b.entries.Keys, sessions), Counted(handles, handles.Keys, sessions);
    assert handles.Keys == b.availability.Keys;
    CountedIsHeld(b, sessions);
    LiveIsCounted(b, sessions);
    assert speed !! others;
    assert speed + others == Live(b.created, sessions);
    assert |speed + others| == |speed| + |others|;
  }

  lemma LiveIsCounted(b: Books, sessions: map<string, Session>)
    requires Live(b.created, sessions) <= Held(b) && "" !in b.created
    ensures Live(b.created, sessions) <= Counted(b.entries, b.entries.Keys, sessions) + Counted(Handles(b.availability), Handles(b.availability).Keys, sessions)
  {
    var handles := Handles(b.availability);
    forall id | id in Live(b.created, sessions)
      ensures id in Counted(b.entries, b.entries.Keys, sessions) + Counted(handles, handles.Keys, sessions)
    {
      if id in SpeedIds(b.entries) {
        var n :| n in b.entries && b.entries[n].session == id;
        assert !Free(sessions, b.entries[n].session);
      } else {
        var n :| n in b.availability && b.availability[n].handle.session == id;
        assert !Free(sessions, handles[n].session);
      }
    }
  }

  lemma CountedIsHeld(b: Books, sessions: map<string, Session>)
    requires Held(b) <= b.created + {""}
    ensures Counted(b.entries, b.entries.Keys, sessions) <= SpeedIds(b.entries) * Live(b.created, sessions)
    ensures Counted(Handles(b.availability), Handles(b.availability).Keys, sessions) <= AvailabilityIds(b.availability) * Live(b.created, sessions)
  {
    var handles := Handles(b.availability);
    forall id | id in Counted(b.entries, b.entries.Keys, sessions) ensures id in SpeedIds(b.entries) && id in Live(b.created, sessions) {
      var n :| n in b.entries && b.entries[n].session == id && !Free(sessions, id);
      assert id in Held(b);
    }
    forall id | id in Counted(handles, handles.Keys, sessions) ensures id in AvailabilityIds(b.availability) && id in Live(b.created, sessions) {
      var n :| n in b.availability && handles[n].session == id && !Free(sessions, id);
      assert id in Held(b);
    }
  }

  lemma StaysReplaceable(b: Books, before: map<string, Session>, after: map<string, Session>, n: Node, now: Time)
    requires Replaceable(b, before, n) && OnlyRead(before, after, now)
    ensures Replaceable(b, after, n)
  {
  }

  lemma EvolvedReplaceable(b: Books, before: map<string, Session>, issued: set<string>, after: map<string, Session>, max: nat, n: Node)
    requires BooksInv(b, before, max) && b.created <= issued && Evolved(before, issued, after) && Replaceable(b, before, n)
    ensures Replaceable(b, after, n)
  {
    if n in b.availability {
      assert b.availability[n].handle.session in AvailabilityIds(b.availability);
      assert b.availability[n].handle.session in Held(b);
    }
  }

  /** What a reading would show keeps the books right. */
  lemma BooksSeen(b: Books, st: Store, issued: set<string>, max: nat, now: Time)
    requires StoreInv(st) && BooksInv(b, st.sessions, max) && b.created <= issued && st.sessions.Keys <= issued
    ensures BooksInv(b, OverdueAll(st.sessions, now), max)
  {
    OverdueAllKeeps(st, now);
    AdvancesEvolve(st.sessions, OverdueAll(st.sessions, now), issued);
    EvolutionKeepsBooks(b, st.sessions, issued, OverdueAll(st.sessions, now), max);
  }

  /** An answered episode needs no probe. */
  lemma AnsweredNeedsNone(b: Books, st: Store, issued: set<string>, max: nat, f: Failure, now: Time, cooldown: Time)
    requires StoreInv(st) && BooksInv(b, st.sessions, max) && b.created <= issued && st.sessions.Keys <= issued && f.node in b.availability
    ensures var e := b.availability[f.node];
            AnswersFor(e, f) ==> !NeedsProbe(e, ViewOf(OverdueAll(st.sessions, now), e.handle.session), f.kind, f.since, now, cooldown)
  {
    BooksSeen(b, st, issued, max, now);
  }

  // ----- the cooldown -----

  lemma AdvanceKeepsCooldown(entries: map<Node, Handle>, starts: seq<Start>, abandoned: set<string>, clock: Time, now: Time, cooldown: Time)
    requires CooldownInv(entries, starts, abandoned, clock, cooldown) && clock <= now
    ensures CooldownInv(entries, starts, abandoned, now, cooldown)
  {
  }

  lemma DropKeepsCooldown(entries: map<Node, Handle>, starts: seq<Start>, abandoned: set<string>, clock: Time, cooldown: Time, n: Node, gone: bool)
    requires CooldownInv(entries, starts, abandoned, clock, cooldown) && n in entries
    requires gone || clock - entries[n].startedAt >= cooldown
    ensures CooldownInv(entries - {n}, starts, abandoned + if gone then {entries[n].session} else {}, clock, cooldown)
  {
  }

  lemma StartKeepsCooldown(entries: map<Node, Handle>, starts: seq<Start>, abandoned: set<string>, clock: Time, cooldown: Time, n: Node, h: Handle)
    requires CooldownInv(entries, starts, abandoned, clock, cooldown) && n !in entries && h.startedAt == clock
    ensures CooldownInv(entries[n := h], starts + [Start(n, clock, h.session)], abandoned, clock, cooldown)
  {
    var more := starts + [Start(n, clock, h.session)];
    forall i | 0 <= i < |starts| ensures more[i] == starts[i] {
    }
  }
}
