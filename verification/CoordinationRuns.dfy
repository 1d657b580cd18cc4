/**
  Whole runs: the coordinator's operations interleaved with everything agents, operators and the
  reachability sweep do to sessions.
*/
module CoordinationRuns {
  import opened Wrappers
  import opened SessionSpec
  import opened Sessions
  import opened Controller
  import opened Books
  import opened Coordination

  /** What the coordinator does under one hold of its lock. A round of StartAvailabilityDiagnostics is
      a Settle and then an Ask for each candidate, and resuming deferred starts is a Speed for each, so
      anything may happen in between. */
  datatype Act =
    | Speed(node: Node, attempt: Attempt)
    | Settle(failures: seq<Failure>, ours: set<Node>)
    | Ask(failure: Failure, attempt: Attempt)
    | Annotate(node: Node)
    | Others(operation: Operation)

  datatype Event = Event(act: Act, now: Time)

  /** The identifiers an event may give out. */
  function Names(a: Act): set<string> {
    match a
    case Speed(_, attempt) => {attempt.id}
    case Ask(_, attempt) => {attempt.id}
    case Others(op) => Given(op)
    case _ => {}
  }

  predicate HasNames(a: Act, issued: set<string>) {
    match a
    case Speed(_, attempt) => attempt.id !in issued && attempt.id != ""
    case Ask(_, attempt) => attempt.id !in issued && attempt.id != ""
    case Others(op) => Callable(op, issued)
    case _ => true
  }

  function ClockAfter(e: Event, clock: Time): Time {
    if e.act.Speed? then e.now else clock
  }

  /** Identifiers are never generated twice, and speed probes are started at times that do not go
      back. A round keeps the time of its beginning, which may be behind them. */
  predicate Possible(run: seq<Event>, issued: set<string>, clock: Time) {
    run != [] ==>
      && HasNames(run[0].act, issued) && clock <= ClockAfter(run[0], clock)
      && Possible(run[1..], issued + Names(run[0].act), ClockAfter(run[0], clock))
  }

  lemma {:induction false} FewerIssued(run: seq<Event>, issued: set<string>, fewer: set<string>, clock: Time)
    requires Possible(run, issued, clock) && fewer <= issued
    ensures Possible(run, fewer, clock)
    decreases |run|
  {
    if run != [] {
      FewerIssued(run[1..], issued + Names(run[0].act), fewer + Names(run[0].act), ClockAfter(run[0], clock));
    }
  }

  // ----- episodes -----

  /** The entry of this node answered for this very episode. */
  predicate Answered(availability: map<Node, Entry>, f: Failure) {
    f.node != "" && f.node in availability && AnswersFor(availability[f.node], f)
  }

  /** While it lasts, every check reports the episode, and no other one of that node, nor is any other
      one of it a candidate. */
  predicate Lasts(a: Act, f: Failure) {
    && (a.Settle? ==> f in a.failures && forall g :: g in a.failures && g.node == f.node ==> g == f)
    && (a.Ask? && a.failure.node == f.node ==> a.failure == f)
  }

  predicate LastsThrough(run: seq<Event>, f: Failure) {
    forall i :: 0 <= i < |run| ==> Lasts(run[i].act, f)
  }

  /** None of these probes, beyond the first `since`, is of the node. */
  predicate NoneSince(probes: seq<Start>, since: nat, node: Node) {
    forall i :: since <= i < |probes| ==> probes[i].node != node
  }

  /** Every answered episode that lasts keeps its answer, and none of the new probes is of its node. */
  ghost predicate StillAnswered(before: map<Node, Entry>, log: seq<Start>, after: map<Node, Entry>, probes: seq<Start>, f: Failure) {
    Answered(before, f) ==> Answered(after, f) && log <= probes && NoneSince(probes, |log|, f.node)
  }

  lemma SettlingKeepsAnswer(before: map<Node, Entry>, probes: seq<Start>, failures: seq<Failure>, after: map<Node, Entry>, f: Failure)
    requires Quiet(before, failures, after, [])
    requires f in failures && forall g :: g in failures && g.node == f.node ==> g == f
    ensures StillAnswered(before, probes, after, probes, f)
  {
    assert Answered(before, f) ==> Lasting(before, failures, f);
  }

  lemma AskingKeepsAnswer(before: map<Node, Entry>, log: seq<Start>, asked: Failure, id: string, now: Time, after: map<Node, Entry>, probes: seq<Start>, f: Failure)
    requires Tried(asked, id, now, before, log, after, probes) && (asked.node == f.node ==> asked == f)
    requires asked.node in before && AnswersFor(before[asked.node], asked) ==> after == before && probes == log
    ensures StillAnswered(before, log, after, probes, f)
  {
  }

  // ----- one event -----

  method DoSpeed(c: Coordinator, node: Node, attempt: Attempt, now: Time)
    requires c.Valid() && c.clock <= now && attempt.id !in c.controller.issued && attempt.id != ""
    modifies c`entries, c`abandoned, c`created, c`starts, c`clock, c.controller`issued, c.controller.manager
    ensures c.Valid() && c.clock == now && c.controller.issued <= old(c.controller.issued) + {attempt.id}
    ensures forall f :: StillAnswered(c.availability, c.probes, c.availability, c.probes, f)
  {
    var _, _ := c.StartSpeed(node, attempt, now);
  }

  method DoSettle(c: Coordinator, failures: seq<Failure>, ours: set<Node>, now: Time)
    requires c.Valid()
    modifies c`availability, c`journal, c.controller.manager`sessions
    ensures c.Valid()
    ensures forall f :: Lasts(Settle(failures, ours), f) ==> StillAnswered(old(c.availability), c.probes, c.availability, c.probes, f)
  {
    ghost var before := c.availability;
    var _ := c.Settled(failures, ours, now);
    forall f | Lasts(Settle(failures, ours), f) ensures StillAnswered(before, c.probes, c.availability, c.probes, f) {
      SettlingKeepsAnswer(before, c.probes, failures, c.availability, f);
    }
  }

  method DoAsk(c: Coordinator, failure: Failure, attempt: Attempt, now: Time)
    requires c.Valid() && attempt.id !in c.controller.issued && attempt.id != ""
    modifies c`availability, c`created, c`probes, c.controller`issued, c.controller.manager
    ensures c.Valid() && c.controller.issued <= old(c.controller.issued) + {attempt.id}
    ensures forall f :: Lasts(Ask(failure, attempt), f) ==> StillAnswered(old(c.availability), old(c.probes), c.availability, c.probes, f)
  {
    ghost var before, log := c.availability, c.probes;
    c.StartAvailability(failure, attempt, now);
    forall f | Lasts(Ask(failure, attempt), f) ensures StillAnswered(before, log, c.availability, c.probes, f) {
      AskingKeepsAnswer(before, log, failure, attempt.id, now, c.availability, c.probes, f);
    }
  }

  method DoAnnotate(c: Coordinator, node: Node, now: Time)
    requires c.Valid()
    modifies c`availability, c`journal, c.controller.manager`sessions
    ensures c.Valid()
    ensures forall f :: StillAnswered(old(c.availability), c.probes, c.availability, c.probes, f)
  {
    ghost var before := c.availability;
    var _ := c.AvailabilityAnnotation(node, now);
    AnnotatedKeepsAnswers(before, c.availability, node, c.probes);
  }

  lemma AnnotatedKeepsAnswers(before: map<Node, Entry>, after: map<Node, Entry>, node: Node, probes: seq<Start>)
    requires after == before || (node in before && before[node].final.None? && node in after && after == before[node := after[node]])
    ensures forall f :: StillAnswered(before, probes, after, probes, f)
  {
  }

  /** What others do to sessions keeps the coordinator's books right. */
  method DoOthers(c: Coordinator, op: Operation, now: Time)
    requires c.Valid() && HasNames(Others(op), c.controller.issued)
    modifies c.controller`issued, c.controller.manager
    ensures c.Valid() && c.controller.issued == old(c.controller.issued) + Given(op)
    ensures forall f :: StillAnswered(c.availability, c.probes, c.availability, c.probes, f)
  {
    ghost var before, issued := c.controller.manager.sessions, c.controller.issued;
    c.controller.Operate(op, now);
    EvolutionKeepsBooks(c.Contents(), before, issued, c.controller.manager.sessions, c.maxConcurrent);
  }

  method Do(c: Coordinator, e: Event)
    requires c.Valid() && HasNames(e.act, c.controller.issued) && c.clock <= ClockAfter(e, c.clock)
    modifies c, c.controller`issued, c.controller.manager
    ensures c.Valid() && c.clock == ClockAfter(e, old(c.clock)) && c.controller.issued <= old(c.controller.issued) + Names(e.act)
    ensures forall f :: Lasts(e.act, f) ==> StillAnswered(old(c.availability), old(c.probes), c.availability, c.probes, f)
  {
    match e.act
    case Speed(node, attempt) =>
      DoSpeed(c, node, attempt, e.now);
    case Settle(failures, ours) =>
      DoSettle(c, failures, ours, e.now);
    case Ask(failure, attempt) =>
      DoAsk(c, failure, attempt, e.now);
    case Annotate(node) =>
      DoAnnotate(c, node, e.now);
    case Others(op) =>
      DoOthers(c, op, e.now);
  }

  // ----- runs -----

  /** Over every run, whatever agents, operators and the sweep do in between: the coordinator's
      sessions in flight never exceed the limit, none of them is forgotten, no session is journaled
      twice, two speed probes of a node start a cooldown apart unless the first was abandoned, and an
      episode that was answered starts no further probe while it lasts. */
  method Run(c: Coordinator, run: seq<Event>)
    requires c.Valid() && Possible(run, c.controller.issued, c.clock)
    modifies c, c.controller`issued, c.controller.manager
    ensures c.Valid()
    ensures |Live(c.created, c.controller.manager.sessions)| <= c.maxConcurrent
    ensures Live(c.created, c.controller.manager.sessions) <= Held(c.Contents())
    ensures forall i, j {:trigger Differ(c.journal[i], c.journal[j])} :: 0 <= i < j < |c.journal| ==> Differ(c.journal[i], c.journal[j])
    ensures forall i, j :: 0 <= i < j < |c.starts| && c.starts[i].node == c.starts[j].node ==>
              c.starts[i].session in c.abandoned || c.starts[j].at - c.starts[i].at >= c.cooldown
    ensures forall f :: LastsThrough(run, f) ==> StillAnswered(old(c.availability), old(c.probes), c.availability, c.probes, f)
  {
    RunOn(c, run, c.availability, c.probes);
  }

  method RunOn(c: Coordinator, run: seq<Event>, ghost before: map<Node, Entry>, ghost log: seq<Start>)
    requires c.Valid() && Possible(run, c.controller.issued, c.clock)
    modifies c, c.controller`issued, c.controller.manager
    ensures c.Valid()
    ensures forall f :: LastsThrough(run, f) && StillAnswered(before, log, old(c.availability), old(c.probes), f) ==>
              StillAnswered(before, log, c.availability, c.probes, f)
    decreases |run|
  {
    if run == [] {
      return;
    }
    ghost var availability, probes, issued := c.availability, c.probes, c.controller.issued;
    Do(c, run[0]);
    ghost var middle, some := c.availability, c.probes;
    FewerIssued(run[1..], issued + Names(run[0].act), c.controller.issued, c.clock);
    RunOn(c, run[1..], before, log);
    forall f | LastsThrough(run, f) && StillAnswered(before, log, availability, probes, f) ensures StillAnswered(before, log, c.availability, c.probes, f) {
      LastsOn(run, f);
      AnsweredOn(before, log, availability, probes, middle, some, f);
    }
  }

  lemma LastsOn(run: seq<Event>, f: Failure)
    requires run != [] && LastsThrough(run, f)
    ensures Lasts(run[0].act, f) && LastsThrough(run[1..], f)
  {
  }

  lemma AnsweredOn(before: map<Node, Entry>, log: seq<Start>, a: map<Node, Entry>, p: seq<Start>, b: map<Node, Entry>, q: seq<Start>, f: Failure)
    requires StillAnswered(before, log, a, p, f) && StillAnswered(a, p, b, q, f)
    ensures StillAnswered(before, log, b, q, f)
  {
  }
}
