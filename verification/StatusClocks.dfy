/**
  Availability statuses and their clocks. Times are integers, 0 for the zero time; the clock never
  shows it. Failure texts and latencies are not modelled.
*/
module StatusClocks {
  import opened Wrappers

  type Time = int

  datatype State = Online | ProxyFailure | Offline

  /** A TCP or ping check of the host. */
  datatype Check = Check(checked: bool, online: bool)

  /** status is None in records that predate the explicit state. */
  datatype Details = Details(
    online: bool,
    status: Option<State>,
    checkedAt: Time,
    lastChangedAt: Time,
    downSince: Time,
    proxyFailureSince: Time,
    failingSince: Time)
  {
    function Effective(): State {
      if status.Some? then status.value
      else if online then Online
      else if proxyFailureSince != 0 then ProxyFailure
      else Offline
    }

    function ServiceFailureSince(): Time {
      if Effective().Online? then 0
      else if failingSince != 0 then failingSince
      else if Effective().ProxyFailure? then proxyFailureSince
      else downSince
    }
  }

  /** A record from before the explicit state says it by its flags, and its clocks by its state. */
  lemma LegacyInFacts(d: Details)
    requires d.status.None?
    ensures (d.Effective().Online? <==> d.online) && (d.Effective().ProxyFailure? <==> !d.online && d.proxyFailureSince != 0)
    ensures !d.online && d.failingSince == 0 ==>
              d.ServiceFailureSince() == if d.proxyFailureSince != 0 then d.proxyFailureSince else d.downSince
    ensures !d.online && d.failingSince != 0 ==> d.ServiceFailureSince() == d.failingSince
  {
  }

  predicate Refuted(c: Option<Check>) {
    c.Some? && c.value.checked && !c.value.online
  }

  function Classify(online: bool, host: Option<Check>, ping: Option<Check>): State {
    if online then Online else if Refuted(host) && Refuted(ping) then Offline else ProxyFailure
  }

  datatype Event =
    | Checked(online: bool, host: Option<Check>, ping: Option<Check>, at: Time)
    | Diagnosed(tcp: Check, icmp: Check, at: Time)
    | Restored(offline: bool, since: Time, at: Time)
    | Cleared

  predicate Proper(e: Event) {
    match e
    case Checked(_, _, _, at) => at != 0
    case Diagnosed(_, _, at) => at != 0
    case Restored(_, since, at) => since != 0 && at != 0
    case Cleared => true
  }

  /** The state a check leads to: without fresh host checks a host found offline stays so. */
  function StateAfterCheck(previous: Option<Details>, online: bool, host: Option<Check>, ping: Option<Check>): State {
    if !online && host.None? && ping.None? && previous.Some? && previous.value.Effective().Offline? then Offline
    else Classify(online, host, ping)
  }

  function AfterCheck(previous: Option<Details>, online: bool, host: Option<Check>, ping: Option<Check>, now: Time): Details {
    var state := StateAfterCheck(previous, online, host, ping);
    var was := if previous.Some? then Some(previous.value.Effective()) else None;
    var down := if state.Offline? && was == Some(Offline) then previous.value.downSince else 0;
    var failure := if state.ProxyFailure? && was == Some(ProxyFailure) then previous.value.proxyFailureSince else 0;
    var failing := if !online && was.Some? && was != Some(Online) then previous.value.ServiceFailureSince() else 0;
    Details(online, Some(state), now,
            if was == Some(state) then previous.value.lastChangedAt else now,
            if state.Offline? && down == 0 then now else down,
            if state.ProxyFailure? && failure == 0 then now else failure,
            if !online && failing == 0 then now else failing)
  }

  function AfterDiagnosis(current: Details, host: Check, ping: Check, now: Time): Details {
    var state := Classify(false, Some(host), Some(ping));
    var failing :=
      if current.failingSince != 0 then current.failingSince
      else if current.ServiceFailureSince() != 0 then current.ServiceFailureSince() else now;
    current.(
      status := Some(state),
      lastChangedAt := if current.Effective() == state then current.lastChangedAt else now,
      failingSince := failing,
      downSince := if state.Offline? then (if current.downSince == 0 then now else current.downSince) else 0,
      proxyFailureSince := if state.Offline? then 0 else if current.proxyFailureSince == 0 then now else current.proxyFailureSince)
  }

  function Step(d: Option<Details>, e: Event): Option<Details> {
    match e
    case Checked(online, host, ping, at) => Some(AfterCheck(d, online, host, ping, at))
    case Diagnosed(host, ping, at) => if d.None? || d.value.online then d else Some(AfterDiagnosis(d.value, host, ping, at))
    case Restored(offline, since, at) =>
      Some(Details(false, Some(if offline then Offline else ProxyFailure), at, since,
                   if offline then since else 0, if offline then 0 else since, since))
    case Cleared => None
  }

  predicate Failed(c: Check) {
    c.checked && !c.online
  }

  /** The state after an event, in facts: Online exactly when the proxy answers; Offline exactly when
      both host checks were made and failed, or when neither was made and the host was offline before. */
  lemma StateInFacts(d: Option<Details>, e: Event)
    requires e.Checked? || (e.Diagnosed? && d.Some? && !d.value.online)
    ensures Step(d, e).Some?
    ensures e.Checked? ==>
              var state := Step(d, e).value.Effective();
              && (state.Online? <==> e.online)
              && (state.Offline? <==>
                    && !e.online
                    && if e.host.None? && e.ping.None? then d.Some? && d.value.Effective().Offline?
                       else e.host.Some? && e.ping.Some? && Failed(e.host.value) && Failed(e.ping.value))
    ensures e.Diagnosed? ==> Step(d, e).value.Effective() == if Failed(e.tcp) && Failed(e.icmp) then Offline else ProxyFailure
  {
  }

  // ----- the table of statuses -----

  class Checker {
    var details: map<string, Details>

    function Of(id: string): Option<Details>
      reads this
    {
      if id in details then Some(details[id]) else None
    }

    /** storeStatusDetailsLockedMode. */
    method Store(id: string, online: bool, host: Option<Check>, ping: Option<Check>, monitored: bool, allowMaintenance: bool, now: Time) returns (stored: bool)
      modifies this
      ensures stored == (id != "" && (allowMaintenance || monitored))
      ensures Of(id) == if stored then Step(old(Of(id)), Checked(online, host, ping, now)) else old(Of(id))
      ensures forall other :: other != id ==> Of(other) == old(Of(other))
    {
      if id == "" || (!allowMaintenance && !monitored) {
        return false;
      }
      var status := Classify(online, host, ping);
      var d := Details(online, Some(status), now, now, 0, 0, 0);
      if id in details {
        var previous := details[id];
        var previousStatus := previous.Effective();
        if !online && host.None? && ping.None? && previousStatus.Offline? {
          status := Offline;
          d := d.(status := Some(status));
        }
        if previousStatus == status {
          d := d.(lastChangedAt := previous.lastChangedAt);
        }
        if status.Offline? && previousStatus.Offline? && previous.downSince != 0 {
          d := d.(downSince := previous.downSince);
        }
        if status.ProxyFailure? && previousStatus.ProxyFailure? && previous.proxyFailureSince != 0 {
          d := d.(proxyFailureSince := previous.proxyFailureSince);
        }
        if !online && !previousStatus.Online? {
          d := d.(failingSince := previous.ServiceFailureSince());
        }
      }
      if status.Offline? && d.downSince == 0 {
        d := d.(downSince := now);
      }
      if status.ProxyFailure? && d.proxyFailureSince == 0 {
        d := d.(proxyFailureSince := now);
      }
      if !online && d.failingSince == 0 {
        d := d.(failingSince := now);
      }
      details := details[id := d];
      return true;
    }

    /** storeOfflineDiagnostics. */
    method StoreDiagnostics(id: string, host: Check, ping: Check, now: Time)
      modifies this
      ensures Of(id) == Step(old(Of(id)), Diagnosed(host, ping, now))
      ensures forall other :: other != id ==> Of(other) == old(Of(other))
    {
      if id !in details {
        return;
      }
      var current := details[id];
      if current.online {
        return;
      }
      var previousStatus := current.Effective();
      var status := Classify(false, Some(host), Some(ping));
      if previousStatus != status {
        current := current.(lastChangedAt := now);
      }
      if current.failingSince == 0 {
        current := current.(failingSince := current.ServiceFailureSince());
        if current.failingSince == 0 {
          current := current.(failingSince := now);
        }
      }
      current := current.(status := Some(status));
      if status.Offline? {
        if current.downSince == 0 {
          current := current.(downSince := now);
        }
        current := current.(proxyFailureSince := 0);
      } else {
        current := current.(downSince := 0);
        if current.proxyFailureSince == 0 {
          current := current.(proxyFailureSince := now);
        }
      }
      details := details[id := current];
    }

    /** RestoreOfflineStatus and RestoreProxyFailureStatus. */
    method Restore(id: string, offline: bool, since: Time, monitored: bool, listed: bool, now: Time) returns (restored: bool)
      modifies this
      ensures restored == (id != "" && since != 0 && monitored && listed)
      ensures Of(id) == if restored then Step(old(Of(id)), Restored(offline, since, now)) else old(Of(id))
      ensures forall other :: other != id ==> Of(other) == old(Of(other))
    {
      if id == "" || since == 0 || !monitored || !listed {
        return false;
      }
      var d := Details(false, Some(if offline then Offline else ProxyFailure), now, since, 0, 0, since);
      d := if offline then d.(downSince := since) else d.(proxyFailureSince := since);
      details := details[id := d];
      return true;
    }

    method Clear(id: string)
      modifies this
      ensures Of(id) == Step(old(Of(id)), Cleared)
      ensures forall other :: other != id ==> Of(other) == old(Of(other))
    {
      details := details - {id};
    }

    /** RefreshHostDiagnosticsByStableID: an online node is left alone, an unknown one is not stored. */
    method Refresh(id: string, host: Check, ping: Check, now: Time) returns (d: Details)
      requires id != ""
      modifies this
      ensures forall other :: other != id ==> Of(other) == old(Of(other))
      ensures old(Of(id)).None? ==> details == old(details) && Some(d) == Step(None, Checked(false, Some(host), Some(ping), now))
      ensures old(Of(id)).Some? && old(Of(id)).value.online ==> details == old(details) && d == details[id]
      ensures old(Of(id)).Some? && !old(Of(id)).value.online ==>
                Of(id) == Some(d) == Step(old(Of(id)), Checked(false, Some(host), Some(ping), now))
    {
      if id !in details {
        var status := Classify(false, Some(host), Some(ping));
        d := Details(false, Some(status), now, now, 0, 0, now);
        return if status.Offline? then d.(downSince := now) else d.(proxyFailureSince := now);
      }
      if details[id].online {
        return details[id];
      }
      var _ := Store(id, false, Some(host), Some(ping), true, false, now);
      return details[id];
    }
  }

  // ----- runs of one node -----

  function After(run: seq<Event>): Option<Details> {
    if run == [] then None else Step(After(run[..|run| - 1]), run[|run| - 1])
  }

  predicate Failing(d: Option<Details>) {
    d.Some? && !d.value.online
  }

  /** Exactly the clock of the state runs, and the failure clock runs with it. */
  predicate ClocksMatch(d: Details) {
    match d.Effective()
    case Online => d.online && d.downSince == 0 && d.proxyFailureSince == 0 && d.failingSince == 0
    case ProxyFailure => !d.online && d.downSince == 0 && d.proxyFailureSince != 0 && d.failingSince != 0
    case Offline => !d.online && d.downSince != 0 && d.proxyFailureSince == 0 && d.failingSince != 0
  }

  predicate ProperRun(run: seq<Event>) {
    forall i :: 0 <= i < |run| ==> Proper(run[i])
  }

  /** Over every run of checks, diagnoses, restores and clears exactly one failure clock runs, the
      one of the status, and none while the node is online. */
  lemma {:induction false} OneClock(run: seq<Event>)
    requires ProperRun(run)
    ensures After(run).Some? ==> After(run).value.status.Some? && ClocksMatch(After(run).value)
    decreases |run|
  {
    if run != [] {
      OneClock(run[..|run| - 1]);
    }
  }

  /** Event i of the run began the present failure: it is a restored failure, or the first failed
      check since the node was last online, cleared or unknown. */
  predicate Began(run: seq<Event>, i: nat, since: Time)
    requires i < |run|
  {
    match run[i]
    case Restored(_, s, _) => since == s
    case Checked(online, _, _, at) => !online && since == at && !Failing(After(run[..i]))
    case _ => false
  }

  /** Nothing after event i ended or replaced the failure. */
  predicate Lasted(run: seq<Event>, i: nat) {
    forall k :: i < k < |run| ==> run[k].Diagnosed? || (run[k].Checked? && !run[k].online)
  }

  /** The failure clock shows when the present failure began, whatever the node was reclassified as
      in the meantime. */
  lemma {:induction false} FailingSinceIsTheFirstFailure(run: seq<Event>) returns (i: nat)
    requires ProperRun(run) && Failing(After(run))
    ensures i < |run| && Began(run, i, After(run).value.failingSince) && Lasted(run, i)
    decreases |run|
  {
    var before := run[..|run| - 1];
    var e := run[|run| - 1];
    OneClock(before);
    if e.Restored? || !Failing(After(before)) {
      i := |run| - 1;
    } else {
      i := FailingSinceIsTheFirstFailure(before);
      assert before[..i] == run[..i];
      assert before[i] == run[i];
      forall k | i < k < |run| ensures run[k].Diagnosed? || (run[k].Checked? && !run[k].online) {
        if k < |before| {
          assert before[k] == run[k];
        }
      }
    }
  }

  /** So the service-level outage has one start for as long as it lasts. */
  lemma {:induction false} OutageHasOneStart(run: seq<Event>, more: seq<Event>)
    requires ProperRun(run + more) && Failing(After(run))
    requires forall k :: 0 <= k < |more| ==> more[k].Diagnosed? || (more[k].Checked? && !more[k].online)
    ensures Failing(After(run + more)) && After(run + more).value.ServiceFailureSince() == After(run).value.ServiceFailureSince() != 0
    decreases |more|
  {
    if more == [] {
      assert run + more == run;
      OneClock(run);
    } else {
      var fewer := more[..|more| - 1];
      assert (run + more)[..|run + more| - 1] == run + fewer;
      OutageHasOneStart(run, fewer);
      OneClock(run + fewer);
      OneClock(run + more);
      assert (run + more)[|run + more| - 1] == more[|more| - 1];
    }
  }

  /** The state's own clock shows when the present state was entered: an offline interval never
      reaches back into the proxy failure before it. */
  lemma {:induction false} StateClockIsItsStart(run: seq<Event>) returns (i: nat)
    requires ProperRun(run) && Failing(After(run))
    ensures i < |run|
    ensures run[i].Restored? || After(run[..i]).None? || After(run[..i]).value.Effective() != After(run).value.Effective()
    ensures forall k :: i < k <= |run| ==> After(run[..k]).Some? && After(run[..k]).value.Effective() == After(run).value.Effective()
    ensures var since := if After(run).value.Effective().Offline? then After(run).value.downSince else After(run).value.proxyFailureSince;
            && since == After(run).value.lastChangedAt
            && match run[i]
               case Restored(_, s, _) => since == s
               case Cleared => false
               case Checked(_, _, _, at) => since == at
               case Diagnosed(_, _, at) => since == at
    decreases |run|
  {
    var before := run[..|run| - 1];
    var e := run[|run| - 1];
    OneClock(before);
    OneClock(run);
    assert run[..|run|] == run;
    if e.Restored? || After(before).None? || After(before).value.Effective() != After(run).value.Effective() {
      i := |run| - 1;
    } else {
      i := StateClockIsItsStart(before);
      forall k | i < k <= |run| ensures After(run[..k]).Some? && After(run[..k]).value.Effective() == After(run).value.Effective() {
        if k < |run| {
          assert before[..k] == run[..k];
        }
      }
      assert before[i] == run[i] && before[..i] == run[..i];
    }
  }
}
