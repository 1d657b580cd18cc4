/**
  Downtime and proxy-failure accounting of one node. Times are nanoseconds, 0 for the zero time; the
  clock never shows it.
*/
module Downtime {
  import opened Wrappers
  import opened StatusClocks

  const SECOND := 1_000_000_000

  datatype Account = Account(since: Time, total: nat, longest: nat, count: nat)

  /** One account for offline intervals and one for proxy failures. */
  datatype Ledger = Ledger(down: Account, failure: Account)

  const EMPTY := Account(0, 0, 0, 0)

  /** closeDowntime and closeProxyFailure. An interval that would end before it began is dropped. */
  function Close(a: Account, now: Time): Account {
    if a.since == 0 then a
    else if now < a.since then a.(since := 0)
    else
      var seconds := (now - a.since) / SECOND;
      a.(since := 0, total := a.total + seconds, longest := if seconds > a.longest then seconds else a.longest)
  }

  function Open(a: Account, since: Time): Account {
    if a.since == 0 then a.(since := since, count := a.count + 1) else a
  }

  /** applyAvailability. */
  function Apply(l: Ledger, d: Details, now: Time): Ledger {
    match d.Effective()
    case Online => Ledger(Close(l.down, now), Close(l.failure, now))
    case ProxyFailure => Ledger(Close(l.down, now), Open(l.failure, if d.proxyFailureSince == 0 then now else d.proxyFailureSince))
    case Offline => Ledger(Open(l.down, if d.downSince == 0 then now else d.downSince), Close(l.failure, now))
  }

  /** Paused closes both accounts: maintenance, retirement, or a project pause. */
  datatype Event = Seen(details: Details, now: Time) | Paused(now: Time)

  function Step(l: Ledger, e: Event): Ledger {
    match e
    case Seen(details, now) => Apply(l, details, now)
    case Paused(now) => Ledger(Close(l.down, now), Close(l.failure, now))
  }

  function After(run: seq<Event>): Ledger {
    if run == [] then Ledger(EMPTY, EMPTY) else Step(After(run[..|run| - 1]), run[|run| - 1])
  }

  // ----- the intervals of a run -----

  /** The node is offline after this event. */
  predicate SeenAs(e: Event, s: State) {
    e.Seen? && e.details.Effective() == s
  }

  function StartOf(e: Event): Time
    requires e.Seen?
  {
    if e.details.Effective().Offline? then (if e.details.downSince == 0 then e.now else e.details.downSince)
    else (if e.details.proxyFailureSince == 0 then e.now else e.details.proxyFailureSince)
  }

  function Seconds(start: Time, end: Time): nat {
    if end < start then 0 else (end - start) / SECOND
  }

  /** The lengths in whole seconds of the intervals in state `s` that the run closed, in order. */
  function Closed(run: seq<Event>, s: State): seq<nat>
    decreases |run|
  {
    if run == [] then []
    else
      var before := run[..|run| - 1];
      var start := Started(before, s);
      if start.Some? && !SeenAs(run[|run| - 1], s) then Closed(before, s) + [Seconds(start.value, run[|run| - 1].now)]
      else Closed(before, s)
  }

  /** When the interval the run ends in began, if it ends in one. */
  function Started(run: seq<Event>, s: State): Option<Time>
    decreases |run|
  {
    if run == [] || !SeenAs(run[|run| - 1], s) then None
    else
      var before := Started(run[..|run| - 1], s);
      if before.Some? then before else Some(StartOf(run[|run| - 1]))
  }

  function Sum(ns: seq<nat>): nat {
    if ns == [] then 0 else Sum(ns[..|ns| - 1]) + ns[|ns| - 1]
  }

  function Max(ns: seq<nat>): (m: nat)
    ensures forall i :: 0 <= i < |ns| ==> ns[i] <= m
    ensures m == 0 || m in ns
  {
    if ns == [] then 0
    else
      var m := Max(ns[..|ns| - 1]);
      if ns[|ns| - 1] > m then ns[|ns| - 1] else m
  }

  predicate Proper(run: seq<Event>) {
    forall i :: 0 <= i < |run| ==> run[i].now > 0 && (run[i].Seen? ==> run[i].details.downSince >= 0 && run[i].details.proxyFailureSince >= 0)
  }

  predicate Matches(a: Account, closed: seq<nat>, open: Option<Time>) {
    && a.total == Sum(closed) && a.longest == Max(closed) && a.count == |closed| + (if open.Some? then 1 else 0)
    && a.since == (if open.Some? then open.value else 0)
  }

  /** Over every run downtime is the sum of the closed offline intervals in whole seconds and its
      longest their maximum; proxy failures have an account of their own and never count as
      downtime. */
  lemma {:induction false} TotalsAreTheIntervals(run: seq<Event>)
    requires Proper(run)
    ensures Matches(After(run).down, Closed(run, Offline), Started(run, Offline))
    ensures Matches(After(run).failure, Closed(run, ProxyFailure), Started(run, ProxyFailure))
    ensures After(run).down.since == 0 || After(run).failure.since == 0
    decreases |run|
  {
    if run != [] {
      var before := run[..|run| - 1];
      TotalsAreTheIntervals(before);
      StepMatches(before, run[|run| - 1], Offline);
      StepMatches(before, run[|run| - 1], ProxyFailure);
      assert before + [run[|run| - 1]] == run;
    }
  }

  function AccountOf(l: Ledger, s: State): Account {
    if s.Offline? then l.down else l.failure
  }

  lemma StepIsOpenOrClose(l: Ledger, e: Event, s: State)
    requires !s.Online?
    ensures AccountOf(Step(l, e), s) == if SeenAs(e, s) then Open(AccountOf(l, s), StartOf(e)) else Close(AccountOf(l, s), e.now)
  {
  }

  lemma CloseMatches(a: Account, closed: seq<nat>, start: Time, now: Time)
    requires Matches(a, closed, Some(start)) && start > 0
    ensures Matches(Close(a, now), closed + [Seconds(start, now)], None)
  {
    var more := closed + [Seconds(start, now)];
    assert more[..|more| - 1] == closed;
  }

  lemma StepMatches(before: seq<Event>, e: Event, s: State)
    requires Proper(before + [e]) && !s.Online?
    requires Matches(AccountOf(After(before), s), Closed(before, s), Started(before, s))
    ensures var run := before + [e];
            Matches(AccountOf(After(run), s), Closed(run, s), Started(run, s))
  {
    var run := before + [e];
    assert run[..|run| - 1] == before && run[|run| - 1] == e;
    forall i | 0 <= i < |before| ensures before[i] == run[i] {
    }
    StartedIsPositive(before, s);
    StepIsOpenOrClose(After(before), e, s);
    var open := Started(before, s);
    if open.Some? && !SeenAs(e, s) {
      CloseMatches(AccountOf(After(before), s), Closed(before, s), open.value, e.now);
    }
  }

  lemma {:induction false} StartedIsPositive(run: seq<Event>, s: State)
    requires forall i :: 0 <= i < |run| ==> run[i].now > 0 && (run[i].Seen? ==> run[i].details.downSince >= 0 && run[i].details.proxyFailureSince >= 0)
    ensures Started(run, s).Some? ==> Started(run, s).value > 0
    decreases |run|
  {
    if run != [] {
      StartedIsPositive(run[..|run| - 1], s);
    }
  }

  /** The recursion above finds real intervals: an open interval began at its first event, after one
      of another kind. */
  lemma {:induction false} StartedIsAnInterval(run: seq<Event>, s: State) returns (i: nat)
    requires Started(run, s).Some?
    ensures i < |run| && (forall k :: i <= k < |run| ==> SeenAs(run[k], s)) && (i == 0 || !SeenAs(run[i - 1], s))
    ensures run[i].Seen? && Started(run, s) == Some(StartOf(run[i]))
    decreases |run|
  {
    var before := run[..|run| - 1];
    if Started(before, s).Some? {
      i := StartedIsAnInterval(before, s);
      assert before[i] == run[i];
      forall k | i <= k < |run| ensures SeenAs(run[k], s) {
        assert k < |before| ==> run[k] == before[k];
      }
      assert i > 0 ==> before[i - 1] == run[i - 1];
    } else {
      i := |run| - 1;
      assert i > 0 ==> before[i - 1] == run[i - 1];
    }
  }
}
