/**
  One review of a squad, from the states of its locations to the recorded groups: what the recovery
  window of Hysteresis means for the ownership record.
*/
module SquadReviews {
  import opened Wrappers
  import opened AnnounceText
  import opened Announce
  import opened AnnounceRuns
  import opened Hysteresis
  import opened StatusMessages

  /** What a review takes from outside. Without evaluations the squad shows no location. */
  datatype Inputs = Inputs(evaluations: map<Location, Evaluation>, scenarios: Scenarios, now: Time, window: Time)

  /** What is known about one squad: its announce, and since when its locations are recovering. */
  datatype Known = Known(v: View, since: Since)

  function GroupsOf(v: View): Groups {
    if v.managed.Some? then v.managed.value.groups else NO_GROUPS
  }

  function ReviewOf(squad: Squad, k: Known, x: Inputs): Review {
    Review(squad, x.evaluations, GroupsOf(k.v), k.since, x.now, x.window)
  }

  predicate AllWell(evaluations: map<Location, Evaluation>) {
    forall key :: key in evaluations ==> evaluations[key].state == Healthy
  }

  /** What the review wants to show; None when it fails before anything is written. */
  function Wanted(squad: Squad, k: Known, x: Inputs): Option<Target> {
    if x.evaluations == map[] then Some(WITHDRAW)
    else TargetFor(x.scenarios, Decided(ReviewOf(squad, k, x)), |x.evaluations|, AllWell(x.evaluations), k.v.managed)
  }

  ghost function Reviewed(squad: Squad, k: Known, x: Inputs, write: Write): (Known, Option<Conflict>) {
    var t := Wanted(squad, k, x);
    if t.None? then (k, None)
    else
      var (w, conflict) := Reconciled(k.v, t.value, write);
      (Known(w, Recovering(ReviewOf(squad, k, x))), conflict)
  }

  class Reviewer {
    const service: Service
    var since: Since

    constructor (service: Service)
      ensures this.service == service && since == map[]
    {
      this.service := service;
      since := map[];
    }

    /** computeDesiredAnnouncements and the pass for one squad; `carried` are the recovery times the
        pass has found for other squads. */
    method ReviewSquad(squad: Squad, x: Inputs, write: Write, carried: Since) returns (failed: bool, conflict: Option<Conflict>)
      modifies this`since, service`managed, service`restored, service`panel
      ensures failed <==> Wanted(squad, Known(old(service.Of(squad)), old(since)), x).None?
      ensures var (after, conflict') := Reviewed(squad, Known(old(service.Of(squad)), old(since)), x, write);
              && service.Of(squad) == after.v && conflict == conflict'
              && since == if failed then old(since) else carried + after.since
      ensures forall other :: other != squad ==> service.Of(other) == old(service.Of(other))
    {
      ghost var k := Known(service.Of(squad), since);
      var managed := if squad in service.managed then Some(service.managed[squad]) else None;
      var r := Review(squad, x.evaluations, if managed.Some? then managed.value.groups else NO_GROUPS, since, x.now, x.window);
      assert r == ReviewOf(squad, k, x);
      var groups, next, allHealthy := DecideGroups(r, carried);
      var target := if x.evaluations == map[] then Some(WITHDRAW) else TargetFor(x.scenarios, groups, |x.evaluations|, allHealthy, managed);
      assert target == Wanted(squad, k, x);
      if target.None? {
        return true, None;
      }
      conflict := service.ReconcileSquad(squad, target.value, write);
      since := next;
      return false, conflict;
    }

    /** After a restart the record is loaded again, and the times are gone. */
    method Restart()
      modifies this`since
      ensures since == map[]
    {
      since := map[];
    }
  }

  // ----- one location of the squad -----

  function MemoryOf(squad: Squad, k: Known, key: Location): Memory {
    Memory(ListedIn(GroupsOf(k.v), key), Get(k.since, (squad, key)))
  }

  ghost function OutcomeOf(t: Target, conflict: Option<Conflict>): Outcome {
    if conflict.Some? then NotWritten else if t.message == "" then Withdrawn else Recorded
  }

  /** Nothing disturbs the review of this location: it is evaluated, and no answer is lost. */
  ghost predicate Plain(squad: Squad, k: Known, x: Inputs, write: Write, key: Location) {
    && Sensible(x.scenarios) && key in x.evaluations
    && (write.AnswerLost? ==> var t := Wanted(squad, k, x); t.Some? ==> WritesNothing(k.v, t.value))
  }

  /** What the review is for this location. */
  ghost function LookOf(squad: Squad, k: Known, x: Inputs, write: Write, key: Location): Hysteresis.Event
    requires key in x.evaluations
  {
    var t := Wanted(squad, k, x);
    if t.None? then Idle
    else Look(x.evaluations[key].state, x.now, OutcomeOf(t.value, Reviewed(squad, k, x, write).1))
  }

  lemma WantedIsTarget(squad: Squad, k: Known, x: Inputs)
    requires Sensible(x.scenarios)
    ensures Wanted(squad, k, x).Some? ==> IsTarget(Wanted(squad, k, x).value)
    ensures Wanted(squad, k, x).Some? && x.evaluations != map[] ==> Wanted(squad, k, x).value.groups == Decided(ReviewOf(squad, k, x))
  {
    TargetIsTarget(x.scenarios, Decided(ReviewOf(squad, k, x)), |x.evaluations|, AllWell(x.evaluations), k.v.managed);
  }

  lemma DecidedLists(r: Review, key: Location)
    requires key in r.evaluations
    ensures ListedIn(Decided(r), key) == r.Verdict(key).0 && Get(Recovering(r), (r.squad, key)) == r.Verdict(key).1
  {
    if r.Verdict(key).1.Some? {
      assert (r.squad, key) in Recovering(r);
    }
  }

  /** A review takes the recorded listing and the recovery time of every location it evaluates by
      exactly one step of the recovery window. */
  lemma ReviewIsStep(squad: Squad, k: Known, base: Option<string>, x: Inputs, write: Write, key: Location)
    requires Keeps(k.v, base) && Plain(squad, k, x, write, key)
    ensures var (after, conflict) := Reviewed(squad, k, x, write);
            && Keeps(after.v, base) && (conflict == None || conflict == Some(UpdateFailed))
            && MemoryOf(squad, after, key) == Hysteresis.Step(MemoryOf(squad, k, key), LookOf(squad, k, x, write, key), x.window)
  {
    var t := Wanted(squad, k, x);
    if t.Some? {
      WantedIsTarget(squad, k, x);
      PassRecords(k.v, base, t.value, write);
      var (w, conflict) := Reconciled(k.v, t.value, write);
      OutcomeIsStep(ReviewOf(squad, k, x), key, GroupsOf(w), OutcomeOf(t.value, conflict));
    }
  }

  lemma OutcomeIsStep(r: Review, key: Location, after: Groups, o: Outcome)
    requires key in r.evaluations
    requires after == if o.NotWritten? then r.previous else if o.Withdrawn? then NO_GROUPS else Decided(r)
    ensures Memory(ListedIn(after, key), Get(Recovering(r), (r.squad, key))) ==
            Hysteresis.Step(Memory(ListedIn(r.previous, key), Get(r.since, (r.squad, key))), Look(r.evaluations[key].state, r.now, o), r.window)
  {
    DecidedLists(r, key);
  }

  lemma PassRecords(v: View, base: Option<string>, t: Target, write: Write)
    requires Keeps(v, base) && IsTarget(t) && (write.AnswerLost? ==> WritesNothing(v, t))
    ensures var (w, conflict) := Reconciled(v, t, write);
            && Keeps(w, base) && (conflict == None || conflict == Some(UpdateFailed))
            && GroupsOf(w) == if conflict.Some? then GroupsOf(v) else if t.message == "" then NO_GROUPS else t.groups
  {
    PassKeepsBase(v, base, t, write);
    RecordedGroups(v, base, t, write);
  }

  /** What a pass makes of the recorded groups. */
  lemma RecordedGroups(v: View, base: Option<string>, t: Target, write: Write)
    requires Keeps(v, base) && IsTarget(t) && (write.AnswerLost? ==> WritesNothing(v, t))
    ensures var (w, conflict) := Reconciled(v, t, write);
            GroupsOf(w) == if conflict.Some? then GroupsOf(v) else if t.message == "" then NO_GROUPS else t.groups
  {
    PassKeepsBase(v, base, t, write);
  }

  /** A location recorded as down that is decided to be down still is forgotten exactly when the
      panel takes an empty message: when the outage scenario for the present number of locations is
      switched off, and the one for maintenance too if any is maintained. */
  lemma ForgottenExactly(squad: Squad, k: Known, base: Option<string>, x: Inputs, write: Write, key: Location)
    requires Keeps(k.v, base) && Plain(squad, k, x, write, key) && key in GroupsOf(k.v).down
    requires Wanted(squad, k, x).Some? && ReviewOf(squad, k, x).Verdict(key).0 == AsDown
    ensures var (after, conflict) := Reviewed(squad, k, x, write);
            key !in GroupsOf(after.v).down <==>
              SilentOn(x.scenarios, Decided(ReviewOf(squad, k, x)), |x.evaluations|) && write.Applied?
  {
    var r := ReviewOf(squad, k, x);
    var t := Wanted(squad, k, x).value;
    WantedIsTarget(squad, k, x);
    RecordedGroups(k.v, base, t, write);
    assert key in Decided(r).down;
    EmptyExactly(x.scenarios, Decided(r), |x.evaluations|, AllWell(x.evaluations), k.v.managed);
  }

  // ----- the failing input: one of two locations is down, and the scenario for one is switched off -----

  const ONE_DOWN := Groups(map["a" := "A"], map[], map[])

  function StillDown(now: Time, window: Time): Inputs {
    Inputs(map["a" := Evaluation("A", Down), "b" := Evaluation("B", Healthy)],
           Scenarios({AllDown, SomeDown}, (_, _, _) => Some("text"), _ => true), now, window)
  }

  predicate ShowsOneDown(v: View) {
    v.managed.Some? && v.managed.value.groups == ONE_DOWN
  }

  lemma StillDownIsDecided(squad: Squad, v: View, now: Time, window: Time)
    requires ShowsOneDown(v)
    ensures Decided(ReviewOf(squad, Known(v, map[]), StillDown(now, window))) == ONE_DOWN
  {
    var r := ReviewOf(squad, Known(v, map[]), StillDown(now, window));
    assert Named(r, AsDown) == map["a" := "A"];
    assert Named(r, AsMaintenance) == map[];
    assert Named(r, AsPartial) == map[];
  }

  lemma TwoLocations(now: Time, window: Time)
    ensures |StillDown(now, window).evaluations| == 2 && |ONE_DOWN.down| == 1
  {
    assert StillDown(now, window).evaluations.Keys == {"a", "b"};
    assert |StillDown(now, window).evaluations| == |{"a", "b"}|;
    assert ONE_DOWN.down.Keys == {"a"};
  }

  lemma StillDownIsPlain(squad: Squad, v: View, now: Time, window: Time)
    ensures Plain(squad, Known(v, map[]), StillDown(now, window), Applied, "a")
  {
    assert IsLine("text");
  }

  lemma StillDownIsSilent(squad: Squad, v: View, now: Time, window: Time)
    requires ShowsOneDown(v)
    ensures var t := Wanted(squad, Known(v, map[]), StillDown(now, window)); t.Some? && t.value.message == ""
  {
    StillDownIsDecided(squad, v, now, window);
    TwoLocations(now, window);
    var sc := StillDown(now, window).scenarios;
    assert OutageMessage(sc, ONE_DOWN, 2) == Some("");
    assert TroubleMessage(sc, ONE_DOWN, 2) == Some("");
  }

  /** The location is still down, and the record forgets it. */
  lemma SwitchedOffForgets(squad: Squad, v: View, base: Option<string>, now: Time, window: Time)
    requires Keeps(v, base) && ShowsOneDown(v)
    ensures var x := StillDown(now, window);
            && Plain(squad, Known(v, map[]), x, Applied, "a") && "a" in GroupsOf(v).down
            && GroupsOf(Reviewed(squad, Known(v, map[]), x, Applied).0.v) == NO_GROUPS
  {
    StillDownIsPlain(squad, v, now, window);
    StillDownIsSilent(squad, v, now, window);
    SilentForgets(squad, Known(v, map[]), base, StillDown(now, window));
  }

  lemma SilentForgets(squad: Squad, k: Known, base: Option<string>, x: Inputs)
    requires Keeps(k.v, base) && Sensible(x.scenarios) && Wanted(squad, k, x).Some? && Wanted(squad, k, x).value.message == ""
    ensures GroupsOf(Reviewed(squad, k, x, Applied).0.v) == NO_GROUPS
  {
    WantedIsTarget(squad, k, x);
    PassRecords(k.v, base, Wanted(squad, k, x).value, Applied);
    PassKeepsBase(k.v, base, Wanted(squad, k, x).value, Applied);
  }

  /** Such a squad exists: the checker has written its status into an empty panel. */
  lemma OneDownIsShown() returns (v: View)
    ensures ShowsOneDown(v) && Keeps(v, None)
  {
    var t := Target("down", "", ONE_DOWN);
    var empty := View(Some(map[]), None, None, None);
    assert Announces(map[]) == {};
    WrittenKeepsBase(empty, None, t);
    v := Written(empty, None, t);
  }

  // ----- runs -----

  datatype Action =
    | Looked(inputs: Inputs, write: Write)
    | Restarted
    | Configured(change: AnnounceRuns.Event)

  ghost function Act(squad: Squad, k: Known, a: Action): Known {
    match a
    case Looked(x, write) => Reviewed(squad, k, x, write).0
    case Restarted => k.(since := map[])
    case Configured(change) => if k.v.headers.Some? && !change.Pass? then k.(v := AnnounceRuns.Step(k.v, change)) else k
  }

  ghost function Acted(squad: Squad, k: Known, run: seq<Action>): Known
    decreases |run|
  {
    if run == [] then k else Act(squad, Acted(squad, k, run[..|run| - 1]), run[|run| - 1])
  }

  /** Every review evaluates the location, over one window, and loses no answer. */
  ghost predicate PlainRun(squad: Squad, k: Known, run: seq<Action>, key: Location, window: Time)
    decreases |run|
  {
    run != [] ==>
      var before, a := run[..|run| - 1], run[|run| - 1];
      && PlainRun(squad, k, before, key, window)
      && (a.Looked? ==> a.inputs.window == window && Plain(squad, Acted(squad, k, before), a.inputs, a.write, key))
  }

  ghost function EventOf(squad: Squad, k: Known, a: Action, key: Location): Hysteresis.Event
    requires a.Looked? ==> key in a.inputs.evaluations
  {
    match a
    case Looked(x, write) => LookOf(squad, k, x, write, key)
    case Restarted => Restart
    case Configured(_) => Idle
  }

  ghost function Events(squad: Squad, k: Known, run: seq<Action>, key: Location, window: Time): (r: seq<Hysteresis.Event>)
    requires PlainRun(squad, k, run, key, window)
    ensures |r| == |run|
    decreases |run|
  {
    if run == [] then []
    else
      var before := run[..|run| - 1];
      Events(squad, k, before, key, window) + [EventOf(squad, Acted(squad, k, before), run[|run| - 1], key)]
  }

  lemma ActionIsStep(squad: Squad, k: Known, base: Option<string>, a: Action, key: Location, window: Time)
    requires Keeps(k.v, base) && (a.Looked? ==> a.inputs.window == window && Plain(squad, k, a.inputs, a.write, key))
    ensures Keeps(Act(squad, k, a).v, base)
    ensures MemoryOf(squad, Act(squad, k, a), key) == Hysteresis.Step(MemoryOf(squad, k, key), EventOf(squad, k, a, key), window)
  {
    match a
    case Looked(x, write) => ReviewIsStep(squad, k, base, x, write, key);
    case Restarted =>
    case Configured(change) =>
      if change.Adopt? {
        AdoptKeepsBase(k.v, base, change.saved);
      }
  }

  /** Over every run, what is recorded and remembered about a location follows the recovery window. */
  lemma {:induction false} RunFollowsWindow(squad: Squad, k: Known, base: Option<string>, run: seq<Action>, key: Location, window: Time)
    requires Keeps(k.v, base) && PlainRun(squad, k, run, key, window)
    ensures Keeps(Acted(squad, k, run).v, base)
    ensures MemoryOf(squad, Acted(squad, k, run), key) == Hysteresis.After(MemoryOf(squad, k, key), Events(squad, k, run, key, window), window)
    decreases |run|
  {
    if run == [] {
    } else {
      var before := run[..|run| - 1];
      RunFollowsWindow(squad, k, base, before, key, window);
      ActionIsStep(squad, Acted(squad, k, before), base, run[|run| - 1], key, window);
      var events := Events(squad, k, run, key, window);
      assert events[..|events| - 1] == Events(squad, k, before, key, window);
    }
  }

  ghost predicate RecordedDown(squad: Squad, k: Known, run: seq<Action>, key: Location) {
    forall n :: 0 <= n <= |run| ==> key in GroupsOf(Acted(squad, k, run[..n]).v).down
  }

  /** A location recorded as down and still evaluated leaves the record only when it is maintained,
      when a pass shows an empty message, or after it was healthy or partial in every pass of an
      unbroken stretch of at least the window, however many writes fail on the way. */
  lemma RecordedUntilRecovered(squad: Squad, k: Known, base: Option<string>, run: seq<Action>, a: Action, key: Location, window: Time)
    requires window > 0 && Keeps(k.v, base) && (squad, key) !in k.since
    requires PlainRun(squad, k, run + [a], key, window)
    requires RecordedDown(squad, k, run, key) && key !in GroupsOf(Acted(squad, k, run + [a]).v).down
    ensures a.Looked? && Wanted(squad, Acted(squad, k, run), a.inputs).Some?
    ensures || Wanted(squad, Acted(squad, k, run), a.inputs).value.message == ""
            || a.inputs.evaluations[key].state.Maintenance?
            || CalmFor(Events(squad, k, run + [a], key, window), window)
  {
    var all := run + [a];
    assert all[..|all| - 1] == run;
    assert run[..|run|] == run;
    var before := Acted(squad, k, run);
    RunFollowsWindow(squad, k, base, run, key, window);
    LeavesByReview(squad, before, base, a, key, window);
    if Wanted(squad, before, a.inputs).value.message != "" {
      var events, e := Events(squad, k, run, key, window), EventOf(squad, before, a, key);
      assert Events(squad, k, all, key, window) == events + [e];
      RunFollowsWindow(squad, k, base, all, key, window);
      DownIsRecorded(squad, k, base, run, key, window);
      DownUntilRecovered(MemoryOf(squad, k, key), events, e, window);
    }
  }

  lemma LeavesByReview(squad: Squad, k: Known, base: Option<string>, a: Action, key: Location, window: Time)
    requires Keeps(k.v, base) && (a.Looked? ==> a.inputs.window == window && Plain(squad, k, a.inputs, a.write, key))
    requires key in GroupsOf(k.v).down && key !in GroupsOf(Act(squad, k, a).v).down
    ensures a.Looked? && Wanted(squad, k, a.inputs).Some?
    ensures Wanted(squad, k, a.inputs).value.message != "" ==>
              EventOf(squad, k, a, key) == Look(a.inputs.evaluations[key].state, a.inputs.now, Recorded)
  {
    ActionIsStep(squad, k, base, a, key, window);
    assert MemoryOf(squad, k, key).listed == AsDown && MemoryOf(squad, Act(squad, k, a), key).listed != AsDown;
  }

  lemma DownIsRecorded(squad: Squad, k: Known, base: Option<string>, run: seq<Action>, key: Location, window: Time)
    requires Keeps(k.v, base) && PlainRun(squad, k, run, key, window) && RecordedDown(squad, k, run, key)
    ensures DownThroughout(MemoryOf(squad, k, key), Events(squad, k, run, key, window), window)
    decreases |run|
  {
    var events := Events(squad, k, run, key, window);
    RunFollowsWindow(squad, k, base, run, key, window);
    assert run[..|run|] == run && events[..|events|] == events;
    if run != [] {
      var before := run[..|run| - 1];
      forall n | 0 <= n <= |before| ensures key in GroupsOf(Acted(squad, k, before[..n]).v).down {
        assert before[..n] == run[..n];
      }
      DownIsRecorded(squad, k, base, before, key, window);
      forall n | 0 <= n <= |events| ensures Hysteresis.After(MemoryOf(squad, k, key), events[..n], window).listed == AsDown {
        if n < |events| {
          assert events[..n] == Events(squad, k, before, key, window)[..n];
        }
      }
    }
  }

  // ----- runs in which everything that is decided is written -----

  /** No restart and no failing write, and no review shows an empty message. */
  ghost predicate Smooth(squad: Squad, k: Known, run: seq<Action>)
    decreases |run|
  {
    run != [] ==>
      var before, a := run[..|run| - 1], run[|run| - 1];
      && Smooth(squad, k, before) && !a.Restarted?
      && (a.Looked? ==>
            var t := Wanted(squad, Acted(squad, k, before), a.inputs);
            a.write.Applied? && (t.Some? ==> t.value.message != ""))
  }

  predicate InTime(run: seq<Action>) {
    forall i, j :: 0 <= i <= j < |run| && run[i].Looked? && run[j].Looked? ==> run[i].inputs.now <= run[j].inputs.now
  }

  /** The event an action is carries the time of its review, and records what was decided. */
  predicate IsSteady(a: Action, e: Hysteresis.Event) {
    e.Idle? || (a.Looked? && e.Look? && e.now == a.inputs.now && e.outcome.Recorded?)
  }

  predicate AreSteady(run: seq<Action>, events: seq<Hysteresis.Event>) {
    |events| == |run| && forall i :: 0 <= i < |run| ==> IsSteady(run[i], events[i])
  }

  lemma {:induction false} SmoothIsSteady(squad: Squad, k: Known, base: Option<string>, run: seq<Action>, key: Location, window: Time)
    requires Keeps(k.v, base) && PlainRun(squad, k, run, key, window) && Smooth(squad, k, run)
    ensures AreSteady(run, Events(squad, k, run, key, window))
    decreases |run|
  {
    if run == [] {
    } else {
      var before, a := run[..|run| - 1], run[|run| - 1];
      SmoothIsSteady(squad, k, base, before, key, window);
      RunFollowsWindow(squad, k, base, before, key, window);
      WrittenIsSteady(squad, Acted(squad, k, before), base, a, key);
      OneMoreIsSteady(run, Events(squad, k, before, key, window), EventOf(squad, Acted(squad, k, before), a, key));
    }
  }

  lemma OneMoreIsSteady(run: seq<Action>, events: seq<Hysteresis.Event>, e: Hysteresis.Event)
    requires run != [] && AreSteady(run[..|run| - 1], events) && IsSteady(run[|run| - 1], e)
    ensures AreSteady(run, events + [e])
  {
  }

  lemma WrittenIsSteady(squad: Squad, k: Known, base: Option<string>, a: Action, key: Location)
    requires Keeps(k.v, base) && !a.Restarted?
    requires a.Looked? ==> Plain(squad, k, a.inputs, a.write, key) && a.write.Applied?
    requires a.Looked? && Wanted(squad, k, a.inputs).Some? ==> Wanted(squad, k, a.inputs).value.message != ""
    ensures IsSteady(a, EventOf(squad, k, a, key))
  {
    if a.Looked? && Wanted(squad, k, a.inputs).Some? {
      WantedIsTarget(squad, k, a.inputs);
      PassKeepsBase(k.v, base, Wanted(squad, k, a.inputs).value, a.write);
    }
  }

  /** While everything that is decided is written, a location recorded as down leaves the record
      exactly at the review that finds it maintained or completes the window. */
  lemma LeavesRecordExactly(squad: Squad, k: Known, base: Option<string>, run: seq<Action>, a: Action, key: Location, window: Time)
    requires window > 0 && Keeps(k.v, base) && (squad, key) !in k.since
    requires PlainRun(squad, k, run + [a], key, window) && RecordedDown(squad, k, run, key)
    requires Smooth(squad, k, run + [a]) && InTime(run + [a])
    requires a.Looked? && Wanted(squad, Acted(squad, k, run), a.inputs).Some?
    ensures key !in GroupsOf(Acted(squad, k, run + [a]).v).down <==>
              a.inputs.evaluations[key].state.Maintenance? || CalmFor(Events(squad, k, run + [a], key, window), window)
  {
    EventsOneMore(squad, k, run, a, key, window);
    var events, e := Events(squad, k, run, key, window), EventOf(squad, Acted(squad, k, run), a, key);
    assert e.Look? && e.state == a.inputs.evaluations[key].state;
    RunFollowsWindow(squad, k, base, run + [a], key, window);
    DownIsRecorded(squad, k, base, run, key, window);
    SmoothIsSteady(squad, k, base, run + [a], key, window);
    SteadyInTime(run + [a], events + [e]);
    RecoversExactly(MemoryOf(squad, k, key), events, e, window);
    IsListedDown(squad, Acted(squad, k, run + [a]), key);
  }

  lemma EventsOneMore(squad: Squad, k: Known, run: seq<Action>, a: Action, key: Location, window: Time)
    requires PlainRun(squad, k, run + [a], key, window)
    ensures PlainRun(squad, k, run, key, window) && (a.Looked? ==> key in a.inputs.evaluations)
    ensures Events(squad, k, run + [a], key, window) == Events(squad, k, run, key, window) + [EventOf(squad, Acted(squad, k, run), a, key)]
  {
    var all := run + [a];
    assert all[..|all| - 1] == run;
  }

  lemma IsListedDown(squad: Squad, k: Known, key: Location)
    ensures key in GroupsOf(k.v).down <==> MemoryOf(squad, k, key).listed == AsDown
  {
  }

  lemma SteadyInTime(run: seq<Action>, events: seq<Hysteresis.Event>)
    requires AreSteady(run, events) && InTime(run)
    ensures Steady(events)
  {
    forall i, j | 0 <= i <= j < |events| && events[i].Look? && events[j].Look? ensures events[i].now <= events[j].now {
      assert IsSteady(run[i], events[i]) && IsSteady(run[j], events[j]);
    }
  }
}
