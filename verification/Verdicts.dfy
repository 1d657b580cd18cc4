/** One cell of the reachability matrix: what an agent and the checker said about a node. */
module Verdicts {
  import opened Wrappers

  type Time = int

  datatype Status = NoStatus | Unknown | Online | ProxyFailure | Offline

  datatype Verdict = VerdictUnknown | AgreedUp | AgreedDown | AgentOnlyFailure | LocalOnlyFailure

  datatype Detail = Plain | NoObservation | AgentOffline | LocalUnknown | SessionExpired | Cancelled

  /** An accepted observation, as far as a cell uses it. */
  datatype Answer = Answer(agent: string, status: Status, checkedAt: Time, reliable: bool, tcpChecked: bool, tcpOnline: bool, code: string)

  datatype Ending = Expired | Stopped | Other

  datatype Session = Session(localStatus: Status, localCheckedAt: Time, answers: seq<Answer>, ending: Ending)

  datatype Cell = Cell(
    agent: string, verdict: Verdict, agentStatus: Status, localStatus: Status, checkedAt: Time, localCheckedAt: Time,
    code: string, tcpReached: bool, detail: Detail, since: Time, streak: nat, generation: nat, stale: bool, unreachable: bool)

  const CONFIRM_SWEEPS := 2

  predicate Confirmed(c: Cell) {
    c.unreachable && c.streak >= CONFIRM_SWEEPS
  }

  /** observationFor: the agent's newest answer. */
  method ObservationFor(answers: seq<Answer>, agent: string) returns (found: Option<Answer>)
    ensures found.None? <==> forall i :: 0 <= i < |answers| ==> answers[i].agent != agent
    ensures found.Some? ==> exists i :: 0 <= i < |answers| && answers[i] == found.value && answers[i].agent == agent
                                        && forall j :: i < j < |answers| ==> answers[j].agent != agent
  {
    var i := |answers|;
    while i > 0
      invariant 0 <= i <= |answers|
      invariant forall j :: i <= j < |answers| ==> answers[j].agent != agent
    {
      i := i - 1;
      if answers[i].agent == agent {
        return Some(answers[i]);
      }
    }
    return None;
  }

  function DetailForMissing(ending: Ending): Detail {
    match ending
    case Expired => SessionExpired
    case Stopped => Cancelled
    case Other => NoObservation
  }

  /** CellFor. */
  method CellFor(session: Session, agent: string, now: Time) returns (cell: Cell)
    ensures cell.agent == agent && cell.localStatus == session.localStatus && cell.localCheckedAt == session.localCheckedAt
    ensures cell.streak == 0 && !cell.stale && !cell.unreachable
    // a verdict needs a reliable answer and a known local result, and then names both sides
    ensures cell.verdict.VerdictUnknown? <==>
              || (forall i :: 0 <= i < |session.answers| ==> session.answers[i].agent != agent)
              || session.localStatus.NoStatus? || session.localStatus.Unknown?
              || exists i :: 0 <= i < |session.answers| && session.answers[i].agent == agent && !session.answers[i].reliable
                             && forall j :: i < j < |session.answers| ==> session.answers[j].agent != agent
    ensures Compared(cell) && (!cell.verdict.VerdictUnknown? ==> cell.detail == Plain)
    ensures cell.verdict.VerdictUnknown? ==> cell.detail != Plain
    ensures !cell.verdict.VerdictUnknown? ==>
              exists i :: 0 <= i < |session.answers| && session.answers[i].agent == agent && session.answers[i].reliable
                          && cell.agentStatus == session.answers[i].status && cell.checkedAt == session.answers[i].checkedAt
                          && forall j :: i < j < |session.answers| ==> session.answers[j].agent != agent
    ensures !cell.verdict.VerdictUnknown? ==>
              && (cell.verdict.AgreedUp? || cell.verdict.AgentOnlyFailure? <==> session.localStatus.Online?)
              && (cell.verdict.AgreedUp? || cell.verdict.LocalOnlyFailure? <==> cell.agentStatus.Online?)
  {
    cell := Cell(agent, VerdictUnknown, NoStatus, session.localStatus, now, session.localCheckedAt, "", false, Plain, 0, 0, 0, false, false);
    var found := ObservationFor(session.answers, agent);
    if found.None? {
      return cell.(detail := DetailForMissing(session.ending));
    }
    var a := found.value;
    cell := cell.(agentStatus := a.status, checkedAt := a.checkedAt, tcpReached := a.tcpChecked && a.tcpOnline, code := a.code);
    if !a.reliable {
      return cell.(detail := AgentOffline);
    }
    if cell.localStatus.NoStatus? || cell.localStatus.Unknown? {
      return cell.(detail := LocalUnknown);
    }
    var localUp, agentUp := cell.localStatus.Online?, cell.agentStatus.Online?;
    if localUp && agentUp {
      cell := cell.(verdict := AgreedUp);
    } else if !localUp && !agentUp {
      cell := cell.(verdict := AgreedDown);
    } else if localUp {
      cell := cell.(verdict := AgentOnlyFailure);
    } else {
      cell := cell.(verdict := LocalOnlyFailure);
    }
  }

  /** A verdict that says something names both sides. */
  predicate Compared(c: Cell) {
    !c.verdict.VerdictUnknown? ==> c.verdict == Compare(c.localStatus.Online?, c.agentStatus.Online?)
  }

  /** Only one of the checker and the agent reached the node. */
  predicate Disagrees(v: Verdict) {
    v.AgentOnlyFailure? || v.LocalOnlyFailure?
  }

  function Compare(localUp: bool, agentUp: bool): Verdict {
    match (localUp, agentUp)
    case (true, true) => AgreedUp
    case (false, false) => AgreedDown
    case (true, false) => AgentOnlyFailure
    case (false, true) => LocalOnlyFailure
  }
}
