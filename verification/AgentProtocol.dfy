/**
  The probe agents' control channel as decisions on one registry record: who may
  enrol, which signed requests are accepted, and what a decision changes.

  Signatures are ideal: a request carries the key that signed it. The token hash is
  modelled by the token itself, and times are integers with 0 for the zero time.
*/
module AgentProtocol {
  import opened Wrappers

  type Time = int
  type Key = string

  const SEQUENCES := 0x1_0000_0000_0000_0000

  /** The agent's identity file. */
  datatype Identity = Identity(key: Key, enrolled: bool, next: nat)

  /** The signature covers the path, so a heartbeat is not valid as another control request. */
  datatype Kind = Heartbeat | Control

  /** A control request as it travels: everything here is covered by the signature. */
  datatype Request = Request(key: Key, kind: Kind, agent: string, timestamp: Time, sequence: nat, body: string)

  datatype Offer = Offer(agent: string, token: string, key: Key, observationKey: Key, wellFormed: bool)

  datatype Config = Config(enabled: bool, ttl: nat, maxSkew: nat)

  datatype Error = Disabled | Invalid | NotFound | Revoked | NotRevoked | WrongSource | NotEnrolled | Replay
                 | EnrollmentUsed | EnrollmentExpired | InvalidEnrollment | NotSaved

  datatype Record = Record(
    source: string,
    enabled: bool,
    revokedAt: Time,
    expiresAt: Time,
    usedAt: Time,
    token: string,
    key: Key,
    observationKey: Key,
    enrolledAt: Time,
    lastSeenAt: Time,
    lastSequence: nat,
    health: string)

  /** The identity and enrolment rules a stored record must meet to be loaded again, and the
      agreement of the two revocation fields. */
  predicate Consistent(r: Record) {
    && (r.key != "" || r.observationKey != "" || r.enrolledAt != 0 ==>
          r.key != "" && r.observationKey != "" && r.enrolledAt != 0 && r.usedAt != 0 && r.token == "")
    && (r.token != "" ==> r.expiresAt != 0 && r.usedAt == 0)
    && (r.enabled <==> r.revokedAt == 0)
    && (r.key == "" ==> r.lastSequence == 0)
  }

  function Created(source: string, token: string, cfg: Config, now: Time): Record {
    Record(source, true, 0, now + cfg.ttl, 0, token, "", "", 0, 0, 0, "")
  }

  function Reissued(r: Record, token: string, cfg: Config, now: Time): Record {
    r.(enabled := true, revokedAt := 0, expiresAt := now + cfg.ttl, usedAt := 0, token := token,
       key := "", observationKey := "", enrolledAt := 0, lastSeenAt := 0, lastSequence := 0, health := "")
  }

  function RevokedRecord(r: Record, now: Time): Record {
    r.(enabled := false, revokedAt := now, token := "")
  }

  /** Why an enrolment is refused, in the order the registry checks. */
  function EnrollError(cfg: Config, r: Option<Record>, offer: Offer, source: string, now: Time): Option<Error> {
    if !cfg.enabled then Some(Disabled)
    else if !offer.wellFormed || offer.key == "" || offer.observationKey == "" || offer.key == offer.observationKey then
      Some(InvalidEnrollment)
    else if r.None? then Some(NotFound)
    else if !r.value.enabled then Some(Revoked)
    else if r.value.source != source then Some(WrongSource)
    else if r.value.usedAt != 0 || r.value.token == "" then Some(EnrollmentUsed)
    else if r.value.expiresAt <= now then Some(EnrollmentExpired)
    else if r.value.token != offer.token then Some(InvalidEnrollment)
    else None
  }

  function Enrolled(r: Record, offer: Offer, now: Time): Record {
    r.(key := offer.key, observationKey := offer.observationKey, usedAt := now, token := "",
       enrolledAt := now, lastSeenAt := now, health := "starting")
  }

  /** Why a signed request is refused. Heartbeats and other control requests differ in the checks
      of the body and of the revocation. */
  function RequestError(cfg: Config, r: Option<Record>, kind: Kind, req: Request, source: string, wellFormed: bool, now: Time): Option<Error> {
    if !cfg.enabled then Some(Disabled)
    else if !wellFormed || req.timestamp == 0 || req.sequence == 0 then Some(Invalid)
    else if req.timestamp < now - cfg.maxSkew || req.timestamp > now + cfg.maxSkew then Some(Invalid)
    else if r.None? then Some(NotFound)
    else if !r.value.enabled || (kind.Control? && r.value.revokedAt != 0) then Some(Revoked)
    else if r.value.source != source then Some(WrongSource)
    else if r.value.key == "" || r.value.enrolledAt == 0 then Some(NotEnrolled)
    else if req.sequence <= r.value.lastSequence then Some(Replay)
    else if req.key != r.value.key || req.kind != kind then Some(Invalid)
    else None
  }

  function AcceptedRecord(r: Record, kind: Kind, req: Request, health: string, now: Time): Record {
    var seen := r.(lastSeenAt := now, lastSequence := req.sequence);
    if kind.Heartbeat? then seen.(health := health) else seen
  }

  /** Every operation keeps a record loadable. */
  lemma OperationsKeepConsistent(cfg: Config, r: Record, offer: Offer, kind: Kind, req: Request, source: string, token: string, health: string, wellFormed: bool, now: Time)
    requires Consistent(r) && now > 0 && token != ""
    ensures Consistent(Created(source, token, cfg, now))
    ensures Consistent(Reissued(r, token, cfg, now))
    ensures Consistent(RevokedRecord(r, now))
    ensures EnrollError(cfg, Some(r), offer, source, now).None? ==> Consistent(Enrolled(r, offer, now))
    ensures RequestError(cfg, Some(r), kind, req, source, wellFormed, now).None? ==>
              Consistent(AcceptedRecord(r, kind, req, health, now))
  {
  }

  // ----- the protocol -----

  /** One agent identity directory, one registry record, and the network between them. `log` and
      `enrollments` only record history: the accepted requests with the issue they were accepted
      under, and the enrolments under the current issue. */
  datatype World = World(
    record: Option<Record>,
    memory: Identity,
    disk: Identity,
    wire: set<Request>,
    keys: set<Key>,
    issue: nat,
    enrollments: nat,
    log: seq<Entry>)

  datatype Entry = Entry(issue: nat, request: Request)

  datatype Action =
    | Sign(kind: Kind, agent: string, body: string, at: Time, saved: bool)
    | Crash
    | LoseIdentity(key: Key)
    | MarkEnrolled(saved: bool)
    | Enroll(offer: Offer, source: string, at: Time, saved: bool)
    | Deliver(kind: Kind, request: Request, source: string, health: string, wellFormed: bool, at: Time, saved: bool)
    | Reissue(token: string, at: Time, saved: bool)
    | Revoke(at: Time, saved: bool)
    | Delete(saved: bool)

  /** The environment: clocks are past the zero time, issued tokens are not empty, a sequence never
      wraps, a new identity has a fresh key, and no one signs with a key the agent holds. Requests
      stay on the wire for ever, so they may be lost, reordered and delivered any number of times. */
  predicate Possible(w: World, a: Action) {
    match a
    case Sign(_, _, _, at, _) => at > 0 && w.memory.next + 1 < SEQUENCES
    case LoseIdentity(key) => key !in w.keys && key != "" && (w.record.Some? ==> w.record.value.key != key)
    case Enroll(_, _, at, _) => at > 0
    case Deliver(_, request, _, _, _, at, _) => at > 0 && (request in w.wire || request.key !in w.keys)
    case Reissue(token, at, _) => at > 0 && token != ""
    case Revoke(at, _) => at > 0
    case _ => true
  }

  /** postSignedJSONBytes: count in memory, save, and only then sign and send. */
  function AfterSign(w: World, kind: Kind, agent: string, body: string, at: Time, saved: bool): World {
    var sequence := (w.memory.next + 1) % SEQUENCES;
    var memory := w.memory.(next := sequence);
    if !saved then w.(memory := memory)
    else if sequence == 0 then w.(memory := memory, disk := memory)
    else w.(memory := memory, disk := memory, wire := w.wire + {Request(memory.key, kind, agent, at, sequence, body)})
  }

  function AfterDeliver(cfg: Config, w: World, kind: Kind, request: Request, source: string, health: string, wellFormed: bool, at: Time, saved: bool): World {
    if RequestError(cfg, w.record, kind, request, source, wellFormed, at).Some? || !saved then w
    else w.(record := Some(AcceptedRecord(w.record.value, kind, request, health, at)),
            log := w.log + [Entry(w.issue, request)])
  }

  function AfterEnroll(cfg: Config, w: World, offer: Offer, source: string, at: Time, saved: bool): World {
    if EnrollError(cfg, w.record, offer, source, at).Some? || !saved then w
    else w.(record := Some(Enrolled(w.record.value, offer, at)), enrollments := w.enrollments + 1)
  }

  function Step(cfg: Config, w: World, a: Action): World {
    match a
    case Sign(kind, agent, body, at, saved) => AfterSign(w, kind, agent, body, at, saved)
    case Crash => w.(memory := w.disk)
    case LoseIdentity(key) => w.(memory := Identity(key, false, 0), disk := Identity(key, false, 0), keys := w.keys + {key})
    case MarkEnrolled(saved) =>
      var memory := w.memory.(enrolled := true);
      w.(memory := memory, disk := if saved then memory else w.disk)
    case Enroll(offer, source, at, saved) => AfterEnroll(cfg, w, offer, source, at, saved)
    case Deliver(kind, request, source, health, wellFormed, at, saved) =>
      AfterDeliver(cfg, w, kind, request, source, health, wellFormed, at, saved)
    case Reissue(token, at, saved) =>
      if !cfg.enabled || w.record.None? || !saved then w
      else w.(record := Some(Reissued(w.record.value, token, cfg, at)), issue := w.issue + 1, enrollments := 0)
    case Revoke(at, saved) =>
      if w.record.None? || !saved then w else w.(record := Some(RevokedRecord(w.record.value, at)))
    case Delete(saved) =>
      if !cfg.enabled || w.record.None? || w.record.value.enabled || w.record.value.revokedAt == 0 || !saved then w
      else w.(record := None)
  }

  predicate PossibleRun(cfg: Config, w: World, run: seq<Action>)
    decreases |run|
  {
    run == [] || (Possible(w, run[0]) && PossibleRun(cfg, Step(cfg, w, run[0]), run[1..]))
  }

  function After(cfg: Config, w: World, run: seq<Action>): World
    decreases |run|
  {
    if run == [] then w else After(cfg, Step(cfg, w, run[0]), run[1..])
  }

  /** A new registry record and a new identity directory. */
  predicate Start(w: World) {
    && w.record.Some? && Consistent(w.record.value) && w.record.value.key == "" && w.record.value.usedAt == 0
    && w.memory == w.disk && w.disk.next == 0 && w.disk.key != ""
    && w.keys == {w.disk.key} && w.wire == {} && w.enrollments == 0 && w.log == []
  }

  // ----- the invariant -----

  ghost predicate ClientInv(w: World) {
    && w.memory.key == w.disk.key && w.memory.key != "" && w.disk.key in w.keys
    && w.disk.next <= w.memory.next < SEQUENCES
    && (forall m :: m in w.wire ==> m.key in w.keys && m.sequence >= 1)
    && (forall m :: m in w.wire && m.key == w.disk.key ==> m.sequence <= w.disk.next)
    && (forall m, m' :: m in w.wire && m' in w.wire && m.key == m'.key && m.sequence == m'.sequence ==> m == m')
  }

  /** Under one issue, accepted requests carry one key and strictly growing sequences. */
  ghost predicate Ordered(log: seq<Entry>, issue: nat) {
    && (forall i :: 0 <= i < |log| ==> log[i].issue <= issue && log[i].request.sequence >= 1)
    && (forall i, j :: 0 <= i < j < |log| ==> log[i].issue <= log[j].issue)
    && (forall i, j :: 0 <= i < j < |log| && log[i].issue == log[j].issue ==>
          log[i].request.sequence < log[j].request.sequence && log[i].request.key == log[j].request.key)
  }

  /** The stored sequence is that of the last request accepted under the current issue. */
  ghost predicate LastIsLogged(r: Record, log: seq<Entry>, issue: nat) {
    if log != [] && log[|log| - 1].issue == issue
    then r.lastSequence == log[|log| - 1].request.sequence && r.key == log[|log| - 1].request.key
    else r.lastSequence == 0
  }

  /** What was accepted was signed and dated. */
  ghost predicate Dated(log: seq<Entry>) {
    forall i :: 0 <= i < |log| ==> log[i].request.key != "" && log[i].request.timestamp != 0
  }

  /** Whoever sees the network can deliver this request. */
  predicate Deliverable(w: World, request: Request) {
    request in w.wire || request.key !in w.keys
  }

  /** What was accepted under the current issue can be delivered again. */
  ghost predicate StillDeliverable(w: World) {
    forall i :: 0 <= i < |w.log| && w.log[i].issue == w.issue ==> Deliverable(w, w.log[i].request)
  }

  ghost predicate LogInv(w: World) {
    Ordered(w.log, w.issue) && Dated(w.log) && (w.record.Some? ==> LastIsLogged(w.record.value, w.log, w.issue))
  }

  ghost predicate RegistryInv(w: World) {
    && (w.record.Some? ==>
          var r := w.record.value;
          && Consistent(r)
          && (r.key == w.disk.key ==> r.lastSequence <= w.disk.next)
          && w.enrollments <= 1 && (w.enrollments == 1 <==> r.usedAt != 0))
    && w.enrollments <= 1
  }

  ghost predicate Inv(w: World) {
    ClientInv(w) && LogInv(w) && RegistryInv(w)
  }

  lemma StepKeepsClientInv(cfg: Config, w: World, a: Action)
    requires ClientInv(w) && Possible(w, a)
    ensures ClientInv(Step(cfg, w, a))
  {
    if a.Sign? {
      var sequence := (w.memory.next + 1) % SEQUENCES;
      assert sequence == w.memory.next + 1;
    }
  }

  lemma OrderedExtends(r: Record, log: seq<Entry>, issue: nat, request: Request)
    requires Ordered(log, issue) && LastIsLogged(r, log, issue)
    requires request.sequence > r.lastSequence && request.key == r.key
    ensures Ordered(log + [Entry(issue, request)], issue)
  {
    var n := |log|;
    forall i | 0 <= i < n && log[i].issue == issue
      ensures log[i].request.sequence < request.sequence && log[i].request.key == request.key
    {
      assert log[i].issue <= log[n - 1].issue <= issue by {
        assert i < n - 1 ==> log[i].issue <= log[n - 1].issue;
      }
      assert i < n - 1 ==> log[i].request.sequence < log[n - 1].request.sequence;
    }
  }

  lemma DeliverKeepsLogInv(cfg: Config, w: World, kind: Kind, request: Request, source: string, health: string, wellFormed: bool, at: Time, saved: bool)
    requires LogInv(w)
    ensures LogInv(AfterDeliver(cfg, w, kind, request, source, health, wellFormed, at, saved))
  {
    if RequestError(cfg, w.record, kind, request, source, wellFormed, at).None? && saved {
      OrderedExtends(w.record.value, w.log, w.issue, request);
    }
  }

  /** Before an enrolment the record has no key, so nothing was accepted under its issue yet. */
  lemma EnrollKeepsLogInv(cfg: Config, w: World, offer: Offer, source: string, at: Time, saved: bool)
    requires LogInv(w) && (w.record.Some? ==> Consistent(w.record.value))
    ensures LogInv(AfterEnroll(cfg, w, offer, source, at, saved))
  {
  }

  lemma NextIssueIsOrdered(log: seq<Entry>, issue: nat)
    requires Ordered(log, issue)
    ensures Ordered(log, issue + 1) && (log != [] ==> log[|log| - 1].issue != issue + 1)
  {
  }

  lemma StepKeepsLogInv(cfg: Config, w: World, a: Action)
    requires LogInv(w) && RegistryInv(w) && Possible(w, a)
    ensures LogInv(Step(cfg, w, a))
  {
    var w' := Step(cfg, w, a);
    match a
    case Deliver(kind, request, source, health, wellFormed, at, saved) =>
      DeliverKeepsLogInv(cfg, w, kind, request, source, health, wellFormed, at, saved);
    case Reissue(_, _, _) =>
      NextIssueIsOrdered(w.log, w.issue);
    case Enroll(offer, source, at, saved) =>
      EnrollKeepsLogInv(cfg, w, offer, source, at, saved);
    case _ =>
      assert w'.log == w.log && w'.issue == w.issue;
  }

  lemma StepKeepsRegistryInv(cfg: Config, w: World, a: Action)
    requires Inv(w) && Possible(w, a)
    ensures RegistryInv(Step(cfg, w, a))
  {
  }

  lemma StepKeepsInv(cfg: Config, w: World, a: Action)
    requires Inv(w) && Possible(w, a)
    ensures Inv(Step(cfg, w, a))
  {
    StepKeepsClientInv(cfg, w, a);
    StepKeepsLogInv(cfg, w, a);
    StepKeepsRegistryInv(cfg, w, a);
  }

  lemma {:induction false} RunKeepsInv(cfg: Config, w: World, run: seq<Action>)
    requires Inv(w) && PossibleRun(cfg, w, run)
    ensures Inv(After(cfg, w, run))
    decreases |run|
  {
    if run != [] {
      StepKeepsInv(cfg, w, run[0]);
      RunKeepsInv(cfg, Step(cfg, w, run[0]), run[1..]);
    }
  }

  lemma StartIsInv(w: World)
    requires Start(w)
    ensures Inv(w)
  {
  }

  // ----- what the invariant says -----

  /** Under loss, duplication, reordering and crashes of either side, no two acceptances under one
      issue are of the same request, and the stored sequence never passes the agent's saved one. */
  lemma NeverAcceptedTwice(cfg: Config, w: World, run: seq<Action>)
    requires Start(w) && PossibleRun(cfg, w, run)
    ensures var end := After(cfg, w, run);
            && (forall i, j :: 0 <= i < j < |end.log| && end.log[i].issue == end.log[j].issue ==>
                  end.log[i].request != end.log[j].request && end.log[i].request.sequence < end.log[j].request.sequence)
            && (end.record.Some? && end.record.value.key == end.disk.key ==>
                  end.record.value.lastSequence <= end.disk.next)
  {
    StartIsInv(w);
    RunKeepsInv(cfg, w, run);
  }

  /** A token enrols at most one identity before the next reissue. */
  lemma OneEnrollmentPerIssue(cfg: Config, w: World, run: seq<Action>)
    requires Start(w) && PossibleRun(cfg, w, run)
    ensures After(cfg, w, run).enrollments <= 1
    ensures var end := After(cfg, w, run);
            end.enrollments == 1 && end.record.Some? ==>
              forall offer, source, at :: EnrollError(cfg, end.record, offer, source, at).Some?
  {
    StartIsInv(w);
    RunKeepsInv(cfg, w, run);
  }

  /** A request that passes every other check is refused as a replay if and only if one with its
      sequence or a later one was accepted under the current issue. */
  lemma ReplayExactly(cfg: Config, w: World, kind: Kind, request: Request, source: string, wellFormed: bool, at: Time)
    requires Inv(w) && w.record.Some?
    requires RequestError(cfg, Some(w.record.value.(lastSequence := 0)), kind, request, source, wellFormed, at).None?
    ensures RequestError(cfg, w.record, kind, request, source, wellFormed, at) ==
            if exists i :: 0 <= i < |w.log| && w.log[i].issue == w.issue && request.sequence <= w.log[i].request.sequence
            then Some(Replay) else None
  {
    var n := |w.log|;
    if n > 0 && w.log[n - 1].issue == w.issue {
      forall i | 0 <= i < n && w.log[i].issue == w.issue
        ensures w.log[i].request.sequence <= w.record.value.lastSequence
      {
      }
      assert w.record.value.lastSequence == w.log[n - 1].request.sequence;
    } else {
      forall i | 0 <= i < n ensures w.log[i].issue != w.issue {
        assert i < n - 1 ==> w.log[i].issue <= w.log[n - 1].issue;
      }
    }
  }

  /** A request just signed by the enrolled agent is newer than everything accepted so far. */
  lemma SignedIsFresh(cfg: Config, w: World, kind: Kind, agent: string, body: string, at: Time)
    requires Inv(w) && w.record.Some? && w.record.value.key == w.disk.key
    requires Possible(w, Sign(kind, agent, body, at, true))
    ensures var w' := Step(cfg, w, Sign(kind, agent, body, at, true));
            var request := Request(w.disk.key, kind, agent, at, w'.disk.next, body);
            && request in w'.wire && request !in w.wire
            && request.sequence > w'.record.value.lastSequence
            && forall endpoint, source, wellFormed, now ::
                 RequestError(cfg, w'.record, endpoint, request, source, wellFormed, now) != Some(Replay)
  {
    assert (w.memory.next + 1) % SEQUENCES == w.memory.next + 1;
  }

  // ----- what is accepted -----

  /** The facts under which a request is accepted. */
  lemma RequestAcceptedExactly(cfg: Config, r: Option<Record>, kind: Kind, req: Request, source: string, wellFormed: bool, now: Time)
    requires r.Some? ==> Consistent(r.value)
    ensures RequestError(cfg, r, kind, req, source, wellFormed, now).None? <==>
              && cfg.enabled && wellFormed && req.timestamp != 0 && req.sequence != 0
              && now - cfg.maxSkew <= req.timestamp <= now + cfg.maxSkew
              && r.Some? && r.value.enabled && r.value.revokedAt == 0 && r.value.source == source
              && r.value.key != "" && r.value.key == req.key && kind == req.kind && req.sequence > r.value.lastSequence
    ensures cfg.enabled && wellFormed && req.timestamp != 0 && req.sequence != 0 && now - cfg.maxSkew <= req.timestamp <= now + cfg.maxSkew ==>
              (RequestError(cfg, r, kind, req, source, wellFormed, now) == Some(Revoked) <==> r.Some? && r.value.revokedAt != 0)
  {
  }

  /** The facts under which an offer is taken: among them that the token is the one that was issued,
      was not used and has not expired. */
  lemma OfferTakenExactly(cfg: Config, r: Option<Record>, offer: Offer, source: string, now: Time)
    requires r.Some? ==> Consistent(r.value)
    ensures EnrollError(cfg, r, offer, source, now).None? <==>
              && cfg.enabled && offer.wellFormed && offer.key != "" && offer.observationKey != "" && offer.key != offer.observationKey
              && r.Some? && r.value.revokedAt == 0 && r.value.source == source
              && r.value.token != "" && offer.token == r.value.token && now < r.value.expiresAt
  {
  }

  /** What a delivery that is accepted does to the record, and that any other changes nothing. */
  lemma DeliveryInFacts(cfg: Config, w: World, a: Action)
    requires Inv(w) && a.Deliver?
    ensures var w' := Step(cfg, w, a);
            if w'.log == w.log then w' == w
            else
              && a.saved && w.record.Some? && w.record.value.revokedAt == 0 && a.source == w.record.value.source
              && a.at - cfg.maxSkew <= a.request.timestamp <= a.at + cfg.maxSkew && a.request.key == w.record.value.key && a.kind == a.request.kind
              && w'.log == w.log + [Entry(w.issue, a.request)]
              && w'.record.Some? && w'.record.value.lastSequence == a.request.sequence && w'.record.value.lastSeenAt == a.at
              && w'.record.value.health == if a.request.kind.Heartbeat? then a.health else w.record.value.health
  {
    RequestAcceptedExactly(cfg, w.record, a.kind, a.request, a.source, a.wellFormed, a.at);
  }

  predicate IsRevoked(w: World) {
    w.record.Some? ==> w.record.value.revokedAt != 0
  }

  predicate SavesNoReissue(run: seq<Action>) {
    forall i :: 0 <= i < |run| && run[i].Reissue? ==> !run[i].saved
  }

  /** From a revocation on nothing is accepted and nobody enrols, until the agent is reissued. */
  lemma {:induction false} RevokedIsShutOut(cfg: Config, w: World, run: seq<Action>)
    requires Inv(w) && IsRevoked(w) && PossibleRun(cfg, w, run) && SavesNoReissue(run)
    ensures var end := After(cfg, w, run); IsRevoked(end) && end.log == w.log && end.enrollments == w.enrollments
    decreases |run|
  {
    if run != [] {
      StepKeepsInv(cfg, w, run[0]);
      RevokedStep(cfg, w, run[0]);
      assert SavesNoReissue(run[1..]) by {
        forall i | 0 <= i < |run[1..]| ensures run[1..][i] == run[i + 1] {
        }
      }
      RevokedIsShutOut(cfg, Step(cfg, w, run[0]), run[1..]);
    }
  }

  lemma RevokedStep(cfg: Config, w: World, a: Action)
    requires Inv(w) && IsRevoked(w) && Possible(w, a) && (a.Reissue? ==> !a.saved)
    ensures var w' := Step(cfg, w, a); IsRevoked(w') && w'.log == w.log && w'.enrollments == w.enrollments
  {
    match a
    case Deliver(_, _, _, _, _, _, _) => DeliveryInFacts(cfg, w, a);
    case Enroll(offer, source, at, _) => OfferTakenExactly(cfg, w.record, offer, source, at);
    case _ =>
  }

  lemma {:induction false} SourceIsFixed(cfg: Config, w: World, run: seq<Action>)
    ensures After(cfg, w, run).record.Some? ==> w.record.Some? && After(cfg, w, run).record.value.source == w.record.value.source
    decreases |run|
  {
    if run != [] {
      SourceIsFixed(cfg, Step(cfg, w, run[0]), run[1..]);
    }
  }

  lemma {:induction false} RunThen(cfg: Config, w: World, run: seq<Action>, i: nat)
    requires PossibleRun(cfg, w, run) && i < |run|
    ensures PossibleRun(cfg, w, run[..i]) && Possible(After(cfg, w, run[..i]), run[i])
    ensures After(cfg, w, run[..i + 1]) == Step(cfg, After(cfg, w, run[..i]), run[i])
    decreases i
  {
    if i > 0 {
      RunThen(cfg, Step(cfg, w, run[0]), run[1..], i - 1);
      assert run[..i][1..] == run[1..][..i - 1] && run[..i + 1][1..] == run[1..][..i];
    } else {
      assert run[..1] == [run[0]] && run[..1][1..] == [];
    }
  }

  /** In every run from a new record, whatever is accepted came from the one source the record was made
      for, was dated within the skew of its arrival, and found the agent not revoked. */
  lemma AcceptedInTime(cfg: Config, w: World, run: seq<Action>, i: nat)
    requires Start(w) && PossibleRun(cfg, w, run) && i < |run| && run[i].Deliver?
    requires After(cfg, w, run[..i + 1]).log != After(cfg, w, run[..i]).log
    ensures run[i].source == w.record.value.source && run[i].at - cfg.maxSkew <= run[i].request.timestamp <= run[i].at + cfg.maxSkew
    ensures After(cfg, w, run[..i]).record.Some? && After(cfg, w, run[..i]).record.value.revokedAt == 0
  {
    StartIsInv(w);
    RunThen(cfg, w, run, i);
    RunKeepsInv(cfg, w, run[..i]);
    SourceIsFixed(cfg, w, run[..i]);
    DeliveryInFacts(cfg, After(cfg, w, run[..i]), run[i]);
  }

  // ----- reissues -----

  /** Entries of one issue carry the record's key, which no new identity takes. */
  lemma StepKeepsDeliverable(cfg: Config, w: World, a: Action)
    requires Inv(w) && Possible(w, a) && (w.record.Some? ==> StillDeliverable(w))
    ensures Step(cfg, w, a).record.Some? ==> StillDeliverable(Step(cfg, w, a))
  {
    if a.LoseIdentity? && w.record.Some? {
      forall i | 0 <= i < |w.log| && w.log[i].issue == w.issue ensures w.log[i].request.key == w.record.value.key {
        CurrentKey(w, i);
      }
    }
    if a.Reissue? {
      NextIssueIsOrdered(w.log, w.issue);
    }
  }

  lemma CurrentKey(w: World, i: nat)
    requires LogInv(w) && w.record.Some? && i < |w.log| && w.log[i].issue == w.issue
    ensures w.log[i].request.key == w.record.value.key
  {
    var last := |w.log| - 1;
    assert w.log[i].issue <= w.log[last].issue <= w.issue;
  }

  lemma {:induction false} AcceptedIsDeliverable(cfg: Config, w: World, run: seq<Action>)
    requires Inv(w) && PossibleRun(cfg, w, run) && (w.record.Some? ==> StillDeliverable(w))
    ensures After(cfg, w, run).record.Some? ==> StillDeliverable(After(cfg, w, run))
    decreases |run|
  {
    if run != [] {
      StepKeepsInv(cfg, w, run[0]);
      StepKeepsDeliverable(cfg, w, run[0]);
      AcceptedIsDeliverable(cfg, Step(cfg, w, run[0]), run[1..]);
    }
  }

  /** The registry's clock does not go back behind this time. */
  predicate From(run: seq<Action>, at: Time) {
    forall k :: 0 <= k < |run| ==>
      match run[k]
      case Enroll(_, _, t, _) => t >= at
      case Deliver(_, _, _, _, _, t, _) => t >= at
      case Reissue(_, t, _) => t >= at
      case Revoke(t, _) => t >= at
      case _ => true
  }

  predicate IsAccepted(log: seq<Entry>, since: nat, request: Request) {
    exists j :: since <= j < |log| && log[j].request == request
  }

  /** This run begins with a reissue at this time and accepts the request once more. */
  ghost predicate Reopens(cfg: Config, w: World, token: string, at: Time, request: Request, run: seq<Action>) {
    && run != [] && run[0] == Reissue(token, at, true) && From(run, at) && PossibleRun(cfg, w, run)
    && IsAccepted(After(cfg, w, run).log, |w.log|, request)
  }

  /** From then on nothing is accepted that is older than the skew. */
  lemma {:induction false} NothingOlder(cfg: Config, w: World, run: seq<Action>, at: Time)
    requires From(run, at)
    ensures w.log <= After(cfg, w, run).log
    ensures forall j :: |w.log| <= j < |After(cfg, w, run).log| ==> After(cfg, w, run).log[j].request.timestamp >= at - cfg.maxSkew
    decreases |run|
  {
    if run != [] {
      assert From(run[1..], at) by {
        forall k | 0 <= k < |run[1..]| ensures run[1..][k] == run[k + 1] {
        }
      }
      NothingOlder(cfg, Step(cfg, w, run[0]), run[1..], at);
    }
  }

  /** Reissue, enrolment of the same key, delivery. */
  function Replayed(w: World, request: Request, token: string, at: Time): seq<Action>
    requires w.record.Some?
  {
    var source := w.record.value.source;
    [Reissue(token, at, true),
     Enroll(Offer(request.agent, token, request.key, request.key + "'", true), source, at, true),
     Deliver(request.kind, request, source, "", true, if request.timestamp > at then request.timestamp else at, true)]
  }

  lemma {:induction false} Three(cfg: Config, w: World, a: Action, b: Action, c: Action, rest: seq<Action>)
    requires var w1 := Step(cfg, w, a); Possible(w, a) && Possible(w1, b) && Possible(Step(cfg, w1, b), c)
    requires PossibleRun(cfg, Step(cfg, Step(cfg, Step(cfg, w, a), b), c), rest)
    ensures PossibleRun(cfg, w, [a, b, c] + rest)
    ensures After(cfg, w, [a, b, c] + rest) == After(cfg, Step(cfg, Step(cfg, Step(cfg, w, a), b), c), rest)
  {
    First(cfg, Step(cfg, Step(cfg, w, a), b), c, rest);
    First(cfg, Step(cfg, w, a), b, [c] + rest);
    First(cfg, w, a, [b] + ([c] + rest));
    assert [a, b, c] + rest == [a] + ([b] + ([c] + rest));
  }

  lemma {:induction false} First(cfg: Config, w: World, a: Action, rest: seq<Action>)
    requires Possible(w, a) && PossibleRun(cfg, Step(cfg, w, a), rest)
    ensures PossibleRun(cfg, w, [a] + rest) && After(cfg, w, [a] + rest) == After(cfg, Step(cfg, w, a), rest)
  {
    assert ([a] + rest)[1..] == rest;
  }

  lemma EnrolledAgain(cfg: Config, w: World, request: Request, token: string, at: Time)
    requires w.record.Some? && cfg.enabled && cfg.ttl > 0 && token != "" && at > 0 && request.key != ""
    ensures var run := Replayed(w, request, token, at);
            var w1 := Step(cfg, w, run[0]);
            var w2 := Step(cfg, w1, run[1]);
            && Possible(w, run[0]) && Possible(w1, run[1])
            && w2.record == Some(Enrolled(Reissued(w.record.value, token, cfg, at), run[1].offer, at))
            && w2.log == w.log && w2.issue == w.issue + 1 && w2.wire == w.wire && w2.keys == w.keys
  {
    assert |request.key + "'"| > |request.key|;
  }

  lemma {:induction false} ThenAccepted(cfg: Config, w: World, request: Request, token: string, at: Time)
    requires w.record.Some? && cfg.enabled && cfg.ttl > 0 && token != "" && at > 0
    requires Deliverable(w, request) && request.sequence >= 1 && request.key != "" && request.timestamp != 0
    requires request.timestamp >= at - cfg.maxSkew
    ensures var run := Replayed(w, request, token, at);
            From(run, at) && PossibleRun(cfg, w, run) && After(cfg, w, run).log == w.log + [Entry(w.issue + 1, request)]
  {
    var run := Replayed(w, request, token, at);
    EnrolledAgain(cfg, w, request, token, at);
    Three(cfg, w, run[0], run[1], run[2], []);
    assert [run[0], run[1], run[2]] + [] == run;
  }

  /** A request that was accepted before can be accepted once more after a reissue exactly when its
      timestamp is then at most the skew old, so an operator is safe to reissue once the last accepted
      one is older. By AcceptedIsDeliverable this holds of all that was accepted under the present issue. */
  lemma ReissueReopensExactly(cfg: Config, w: World, i: nat, token: string, at: Time)
    requires Inv(w) && w.record.Some? && cfg.enabled && cfg.ttl > 0 && token != "" && at > 0
    requires i < |w.log| && Deliverable(w, w.log[i].request)
    ensures (exists run :: Reopens(cfg, w, token, at, w.log[i].request, run)) <==> w.log[i].request.timestamp >= at - cfg.maxSkew
  {
    var request := w.log[i].request;
    if request.timestamp >= at - cfg.maxSkew {
      var run := Replayed(w, request, token, at);
      ThenAccepted(cfg, w, request, token, at);
      assert After(cfg, w, run).log[|w.log|].request == request;
      assert Reopens(cfg, w, token, at, request, run);
    }
    forall run | Reopens(cfg, w, token, at, request, run) ensures request.timestamp >= at - cfg.maxSkew {
      NothingOlder(cfg, w, run, at);
    }
  }

  /** The failing input, from a new record on: enrol, sign, deliver, reissue, enrol the same key,
      deliver the same request. */
  lemma AcceptedTwice(cfg: Config, source: string, at: Time) returns (w: World, run: seq<Action>)
    requires cfg.enabled && cfg.ttl > 0 && at > 0
    ensures Start(w) && From(run, at) && PossibleRun(cfg, w, run) && |run| == 6
    ensures var log := After(cfg, w, run).log; |log| == 2 && log[0].request == log[1].request && log[0].issue != log[1].issue
  {
    var identity := Identity("k", false, 0);
    w := World(Some(Created(source, "t", cfg, at)), identity, identity, {}, {"k"}, 0, 0, []);
    var request := Request("k", Control, "a", at, 1, "");
    var first := [Enroll(Offer("a", "t", "k", "o", true), source, at, true), Sign(Control, "a", "", at, true), Deliver(Control, request, source, "", true, at, true)];
    var w1 := Step(cfg, w, first[0]);
    assert w1.record == Some(Enrolled(w.record.value, first[0].offer, at));
    var w2 := Step(cfg, w1, first[1]);
    assert w2.wire == {request};
    var w3 := Step(cfg, w2, first[2]);
    assert w3.log == [Entry(0, request)];
    var again := Replayed(w3, request, "u", at);
    ThenAccepted(cfg, w3, request, "u", at);
    Three(cfg, w, first[0], first[1], first[2], again);
    run := [first[0], first[1], first[2]] + again;
  }
}
