/**
  Which locations a status names, and the recovery window that keeps a location named after it
  looks healthy again. The window is counted in memory; the names are part of the ownership record.
*/
module Hysteresis {
  import opened Wrappers
  import opened AnnounceText
  import opened Announce
  import opened AnnounceRuns

  type Time = int
  type Location = string

  datatype State = Healthy | Down | Partial | Pending | Ambiguous | Maintenance

  datatype Listed = Unlisted | AsDown | AsPartial | AsMaintenance

  datatype Evaluation = Evaluation(text: string, state: State)

  type Since = map<(Squad, Location), Time>

  function ListedIn(g: Groups, key: Location): Listed {
    if key in g.down then AsDown else if key in g.partial then AsPartial
    else if key in g.maintenance then AsMaintenance else Unlisted
  }

  /** What becomes of a location, and since when it is recovering. */
  function Decide(previous: Listed, state: State, since: Option<Time>, now: Time, window: Time): (Listed, Option<Time>) {
    match state
    case Down => (AsDown, None)
    case Maintenance => (AsMaintenance, None)
    case Pending => (previous, None)
    case Ambiguous => (previous, None)
    case _ =>
      if state.Partial? && (previous.Unlisted? || previous.AsPartial?) then (AsPartial, None)
      else if previous.Unlisted? then (Unlisted, None)
      else
        var start := if since.Some? then since.value else now;
        if now - start < window then (previous, Some(start))
        else (if state.Partial? then AsPartial else Unlisted, None)
  }

  function Get(since: Since, key: (Squad, Location)): Option<Time> {
    if key in since then Some(since[key]) else None
  }

  function Name(g: Groups, key: Location, text: string, as_: Listed): Groups {
    match as_
    case Unlisted => g
    case AsDown => g.(down := g.down[key := text])
    case AsPartial => g.(partial := g.partial[key := text])
    case AsMaintenance => g.(maintenance := g.maintenance[key := text])
  }

  predicate Names(g: Groups, key: Location, text: string, as_: Listed) {
    && (key in g.down <==> as_.AsDown?) && (key in g.partial <==> as_.AsPartial?) && (key in g.maintenance <==> as_.AsMaintenance?)
    && (key in g.down ==> g.down[key] == text)
    && (key in g.partial ==> g.partial[key] == text)
    && (key in g.maintenance ==> g.maintenance[key] == text)
  }

  lemma NamingIsLocal(g: Groups, key: Location, text: string, as_: Listed)
    requires ListedIn(g, key) == Unlisted
    ensures Names(Name(g, key, text, as_), key, text, as_)
    ensures forall other, t, a :: other != key && Names(g, other, t, a) ==> Names(Name(g, key, text, as_), other, t, a)
    ensures forall other :: other != key ==> ListedIn(Name(g, key, text, as_), other) == ListedIn(g, other)
  {
  }

  /** One pass over the locations of one squad. */
  datatype Review = Review(squad: Squad, evaluations: map<Location, Evaluation>, previous: Groups, since: Since, now: Time, window: Time) {
    function Verdict(key: Location): (Listed, Option<Time>)
      requires key in evaluations
    {
      Decide(ListedIn(previous, key), evaluations[key].state, Get(since, (squad, key)), now, window)
    }

    /** The verdict on one location is in the groups and in the recovery times. */
    predicate Settled(key: Location, groups: Groups, carried: Since, next: Since)
      requires key in evaluations
    {
      && Names(groups, key, evaluations[key].text, Verdict(key).0)
      && Get(next, (squad, key)) == (if Verdict(key).1.Some? then Verdict(key).1 else Get(carried, (squad, key)))
    }
  }

  /** The locations of a review that are named this way, each with its label. */
  function Named(r: Review, as_: Listed): map<Location, string> {
    map key | key in r.evaluations && r.Verdict(key).0 == as_ :: r.evaluations[key].text
  }

  function Decided(r: Review): Groups {
    Groups(Named(r, AsDown), Named(r, AsPartial), Named(r, AsMaintenance))
  }

  /** The recovery windows that go on after a review. */
  function Recovering(r: Review): Since {
    map key | key in r.evaluations && r.Verdict(key).1.Some? :: (r.squad, key) := r.Verdict(key).1.value
  }

  lemma GroupsAreDecided(r: Review, groups: Groups)
    requires forall key :: key in r.evaluations ==> Names(groups, key, r.evaluations[key].text, r.Verdict(key).0)
    requires forall key :: key !in r.evaluations ==> ListedIn(groups, key) == Unlisted
    ensures groups == Decided(r)
  {
    forall key ensures key in groups.down ==> ListedIn(groups, key) == AsDown {
    }
    forall key ensures key in groups.down <==> key in Named(r, AsDown) {
    }
    forall key ensures key in groups.partial <==> key in Named(r, AsPartial) {
    }
    forall key ensures key in groups.maintenance <==> key in Named(r, AsMaintenance) {
    }
    assert groups.down == Named(r, AsDown);
    assert groups.partial == Named(r, AsPartial);
    assert groups.maintenance == Named(r, AsMaintenance);
  }

  lemma TimesAreCarried(r: Review, carried: Since, next: Since)
    requires forall key :: key in r.evaluations ==>
               Get(next, (r.squad, key)) == (if r.Verdict(key).1.Some? then r.Verdict(key).1 else Get(carried, (r.squad, key)))
    requires forall k: (Squad, Location) :: k.0 != r.squad || k.1 !in r.evaluations ==> Get(next, k) == Get(carried, k)
    ensures next == carried + Recovering(r)
  {
    forall k: (Squad, Location) ensures Get(next, k) == Get(carried + Recovering(r), k) {
      if k.0 == r.squad && k.1 in r.evaluations {
        assert k == (r.squad, k.1);
      }
    }
    SameTimes(next, carried + Recovering(r));
  }

  lemma SettledIsDecided(r: Review, groups: Groups, carried: Since, next: Since)
    requires forall key :: key in r.evaluations ==> r.Settled(key, groups, carried, next)
    requires forall key :: key !in r.evaluations ==> ListedIn(groups, key) == Unlisted
    requires forall k: (Squad, Location) :: k.0 != r.squad || k.1 !in r.evaluations ==> Get(next, k) == Get(carried, k)
    ensures groups == Decided(r) && next == carried + Recovering(r)
  {
    forall key | key in r.evaluations
      ensures Names(groups, key, r.evaluations[key].text, r.Verdict(key).0)
      ensures Get(next, (r.squad, key)) == (if r.Verdict(key).1.Some? then r.Verdict(key).1 else Get(carried, (r.squad, key)))
    {
      assert r.Settled(key, groups, carried, next);
    }
    GroupsAreDecided(r, groups);
    TimesAreCarried(r, carried, next);
  }

  lemma SameTimes(a: Since, b: Since)
    requires forall k: (Squad, Location) :: Get(a, k) == Get(b, k)
    ensures a == b
  {
    forall k: (Squad, Location) ensures (k in a <==> k in b) && (k in a ==> a[k] == b[k]) {
      assert Get(a, k) == Get(b, k);
    }
  }

  /** The part of computeDesiredAnnouncements that goes over one squad's locations. */
  method DecideGroups(r: Review, carried: Since) returns (groups: Groups, next: Since, allHealthy: bool)
    ensures groups == Decided(r) && next == carried + Recovering(r)
    ensures allHealthy <==> forall key :: key in r.evaluations ==> r.evaluations[key].state == Healthy
  {
    groups, next, allHealthy := NO_GROUPS, carried, true;
    var left := r.evaluations.Keys;
    while left != {}
      invariant left <= r.evaluations.Keys && Settling(r, left, groups, carried, next)
      invariant allHealthy <==> forall key :: key in r.evaluations.Keys - left ==> r.evaluations[key].state == Healthy
      decreases left
    {
      var key :| key in left;
      var evaluation := r.evaluations[key];
      if evaluation.state != Healthy {
        allHealthy := false;
      }
      ghost var before, carrying := groups, next;
      var as_, start := DecideOne(ListedIn(r.previous, key), evaluation.state, Get(r.since, (r.squad, key)), r.now, r.window);
      groups := Name(groups, key, evaluation.text, as_);
      if start.Some? {
        next := next[(r.squad, key) := start.value];
      }
      SettlingStep(r, left, before, carried, carrying, key, next);
      left := left - {key};
    }
    SettledIsDecided(r, groups, carried, next);
  }

  /** The locations in `left` are still to come. */
  ghost predicate Settling(r: Review, left: set<Location>, groups: Groups, carried: Since, next: Since) {
    && (forall key :: key in r.evaluations && key !in left ==> r.Settled(key, groups, carried, next))
    && (forall key :: key !in r.evaluations || key in left ==> ListedIn(groups, key) == Unlisted)
    && (forall k: (Squad, Location) :: k.0 != r.squad || k.1 !in r.evaluations || k.1 in left ==> Get(next, k) == Get(carried, k))
  }

  lemma SettlingStep(r: Review, left: set<Location>, groups: Groups, carried: Since, next: Since, key: Location, more: Since)
    requires Settling(r, left, groups, carried, next) && key in left && key in r.evaluations
    requires more == if r.Verdict(key).1.Some? then next[(r.squad, key) := r.Verdict(key).1.value] else next
    ensures Settling(r, left - {key}, Name(groups, key, r.evaluations[key].text, r.Verdict(key).0), carried, more)
  {
    NamingIsLocal(groups, key, r.evaluations[key].text, r.Verdict(key).0);
  }

  method DecideOne(previous: Listed, state: State, since: Option<Time>, now: Time, window: Time) returns (as_: Listed, next: Option<Time>)
    ensures (as_, next) == Decide(previous, state, since, now, window)
  {
    if state.Down? {
      return AsDown, None;
    }
    if state.Maintenance? {
      return AsMaintenance, None;
    }
    if state.Partial? && previous != AsDown && previous != AsMaintenance {
      return AsPartial, None;
    }
    if previous.Unlisted? {
      return Unlisted, None;
    }
    if state.Pending? || state.Ambiguous? {
      return previous, None;
    }
    var start := if since.Some? then since.value else now;
    if now - start < window {
      return previous, Some(start);
    }
    return if state.Partial? then AsPartial else Unlisted, None;
  }

  /** What a pass makes of one location, in facts. What is seen down or maintained is named so at once,
      and what is seen partial unless it was named worse; what was not named is not named for less. A
      name stays while nothing certain is seen, and while the location answers for less than the window;
      then it goes, or becomes partial. */
  lemma DecideInFacts(previous: Listed, state: State, since: Option<Time>, now: Time, window: Time)
    ensures var (listed, next) := Decide(previous, state, since, now, window);
            && (state.Down? || state.Maintenance? || previous == Unlisted ==> next == None)
            && (state.Down? ==> listed == AsDown) && (state.Maintenance? ==> listed == AsMaintenance)
            && (state.Partial? && previous in {Unlisted, AsPartial} ==> listed == AsPartial && next == None)
            && (previous == Unlisted && !state.Down? && !state.Maintenance? && !state.Partial? ==> listed == Unlisted)
            && (previous != Unlisted && (state.Pending? || state.Ambiguous?) ==> listed == previous && next == None)
            && (previous in {AsDown, AsMaintenance} && (state.Healthy? || state.Partial?) ==>
                  var start := if since.Some? then since.value else now;
                  if now < start + window then listed == previous && next == Some(start)
                  else listed == (if state.Partial? then AsPartial else Unlisted) && next == None)
            && (previous == AsPartial && state.Healthy? ==>
                  var start := if since.Some? then since.value else now;
                  if now < start + window then listed == AsPartial && next == Some(start) else listed == Unlisted && next == None)
  {
  }

  // ----- runs of passes over one location -----

  /** What the reconcile pass did with its decision: recorded it, failed to write it, or withdrew
      the whole status because its message came out empty. */
  datatype Outcome = Recorded | NotWritten | Withdrawn

  datatype Event =
    | Look(state: State, now: Time, outcome: Outcome)
    | Restart
    | Idle // nothing was decided about the location

  /** What is known about one location of one squad. */
  datatype Memory = Memory(listed: Listed, since: Option<Time>)

  function Step(m: Memory, e: Event, window: Time): Memory {
    match e
    case Restart => m.(since := None)
    case Idle => m
    case Look(state, now, outcome) =>
      var (listed, since) := Decide(m.listed, state, m.since, now, window);
      Memory(if outcome.Recorded? then listed else if outcome.NotWritten? then m.listed else Unlisted, since)
  }

  function After(m: Memory, run: seq<Event>, window: Time): Memory
    decreases |run|
  {
    if run == [] then m else Step(After(m, run[..|run| - 1], window), run[|run| - 1], window)
  }

  /** From the pass run[i] on, every pass of run[i..j] saw the location healthy or partial. */
  predicate Calm(run: seq<Event>, i: nat, j: nat) {
    && i < j <= |run| && run[i].Look?
    && forall k :: i <= k < j ==> run[k].Idle? || (run[k].Look? && (run[k].state.Healthy? || run[k].state.Partial?))
  }

  /** The run ends in an unbroken calm stretch of at least `window`. */
  predicate CalmFor(run: seq<Event>, window: Time) {
    run != [] && run[|run| - 1].Look? && exists i :: 0 <= i < |run| && Calm(run, i, |run|) && run[|run| - 1].now - run[i].now >= window
  }

  ghost predicate DownThroughout(m: Memory, run: seq<Event>, window: Time) {
    forall k :: 0 <= k <= |run| ==> After(m, run[..k], window).listed == AsDown
  }

  lemma DownBefore(m: Memory, run: seq<Event>, window: Time)
    requires run != [] && DownThroughout(m, run, window)
    ensures DownThroughout(m, run[..|run| - 1], window)
    ensures After(m, run, window).listed == AsDown && After(m, run[..|run| - 1], window).listed == AsDown
  {
    var before := run[..|run| - 1];
    forall k | 0 <= k <= |before| ensures After(m, before[..k], window).listed == AsDown {
      assert before[..k] == run[..k];
    }
    assert run[..|run|] == run;
    assert before[..|before|] == before;
  }

  /** While a location stays named, a running window began at a pass of the present calm stretch. */
  lemma {:induction false} WindowIsCalm(m: Memory, run: seq<Event>, window: Time)
    requires m.since == None && DownThroughout(m, run, window)
    ensures var since := After(m, run, window).since;
            since.Some? ==> exists i :: 0 <= i < |run| && Calm(run, i, |run|) && run[i].now == since.value
    decreases |run|
  {
    if run == [] {
    } else {
      var before := run[..|run| - 1];
      DownBefore(m, run, window);
      WindowIsCalm(m, before, window);
      var previous := After(m, before, window);
      var since := After(m, run, window).since;
      if since.Some? {
        assert !run[|run| - 1].Idle? ==> Calm(run, |run| - 1, |run|);
        if previous.since.Some? {
          var i :| 0 <= i < |before| && Calm(before, i, |before|) && before[i].now == previous.since.value;
          assert Calm(run, i, |run|);
        }
      }
    }
  }

  /** A location named as down leaves that list only by maintenance or by an unbroken calm stretch
      of at least the window, however many writes fail and restarts happen on the way. */
  lemma DownUntilRecovered(m: Memory, run: seq<Event>, e: Event, window: Time)
    requires window > 0 && m.since == None && DownThroughout(m, run, window)
    requires !(e.Look? && e.outcome.Withdrawn?)
    requires After(m, run + [e], window).listed != AsDown
    ensures e.Look? && e.outcome.Recorded? && (e.state.Maintenance? || CalmFor(run + [e], window))
  {
    var all := run + [e];
    assert all[..|all| - 1] == run;
    assert run[..|run|] == run;
    var before := After(m, run, window);
    assert before.listed == AsDown;
    assert After(m, all, window) == Step(before, e, window);
    if !e.state.Maintenance? {
      WindowIsCalm(m, run, window);
      var i :| 0 <= i < |run| && Calm(run, i, |run|) && run[i].now == before.since.value;
      assert Calm(all, i, |all|) && all[i].now == run[i].now;
    }
  }

  predicate Steady(run: seq<Event>) {
    && (forall i :: 0 <= i < |run| ==> run[i].Idle? || (run[i].Look? && run[i].outcome.Recorded?))
    && (forall i, j :: 0 <= i <= j < |run| && run[i].Look? && run[j].Look? ==> run[i].now <= run[j].now)
  }

  /** When every write succeeds, a calm pass is never older than the running window. */
  lemma {:induction false} CalmIsInWindow(m: Memory, run: seq<Event>, i: nat, window: Time)
    requires m.since == None && DownThroughout(m, run, window) && Steady(run)
    requires i < |run| && Calm(run, i, |run|)
    ensures var since := After(m, run, window).since; since.Some? && since.value <= run[i].now
    decreases |run|
  {
    var before := run[..|run| - 1];
    DownBefore(m, run, window);
    if i < |run| - 1 {
      CalmIsInWindow(m, before, i, window);
    } else if |before| > 0 && After(m, before, window).since.Some? {
      WindowIsCalm(m, before, window);
    }
  }

  /** With every write succeeding the window is exact: the location leaves the list at the first
      pass that completes it, and not before. */
  lemma RecoversExactly(m: Memory, run: seq<Event>, e: Event, window: Time)
    requires window > 0 && m.since == None && DownThroughout(m, run, window) && Steady(run + [e]) && e.Look?
    ensures After(m, run + [e], window).listed != AsDown <==> e.state.Maintenance? || CalmFor(run + [e], window)
  {
    var all := run + [e];
    assert all[..|all| - 1] == run;
    assert run[..|run|] == run;
    assert After(m, all, window) == Step(After(m, run, window), e, window);
    assert Steady(run) by {
      forall k | 0 <= k < |run| ensures run[k] == all[k] {
      }
    }
    if After(m, all, window).listed != AsDown {
      DownUntilRecovered(m, run, e, window);
    }
    if CalmFor(all, window) {
      var i :| 0 <= i < |all| && Calm(all, i, |all|) && e.now - all[i].now >= window;
      assert i < |run|;
      assert all[|run|] == e;
      assert Calm(run, i, |run|) by {
        forall k | i <= k < |run| ensures run[k] == all[k] {
        }
      }
      CalmIsInWindow(m, run, i, window);
    }
  }
}
