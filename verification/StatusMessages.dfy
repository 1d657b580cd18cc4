/**
  Which message a squad's status carries. The templates are filled in elsewhere: rendering one may
  fail, and otherwise gives a status line.
*/
module StatusMessages {
  import opened Wrappers
  import opened AnnounceText
  import opened Announce

  datatype Template =
    | AllDown | OneDown | SomeDown | SomeDownShort
    | OneMaintained | SomeMaintained | SomeMaintainedShort | DownAndMaintained
    | OnePartial | SomePartial | SomePartialShort
    | AllHealthy

  /** The scenarios that are switched on, and what each template gives for the named locations and
      the number of all locations. `fits` tells whether a joined message is short enough. */
  datatype Scenarios = Scenarios(enabled: set<Template>, render: (Template, Groups, nat) -> Option<string>, fits: string -> bool)

  ghost predicate Sensible(sc: Scenarios) {
    forall t, g, n {:trigger sc.render(t, g, n)} :: sc.render(t, g, n).Some? ==> IsLine(sc.render(t, g, n).value)
  }

  const NAMED_AT_MOST := 3

  function One(sc: Scenarios, t: Template, g: Groups, total: nat): Option<string> {
    if t in sc.enabled then sc.render(t, g, total) else Some("")
  }

  /** Few locations are named one by one; otherwise, or when the names do not fit, the short text is used. */
  function Several(sc: Scenarios, t: Template, short: Template, count: nat, g: Groups, total: nat): Option<string> {
    if t !in sc.enabled then Some("")
    else if count <= NAMED_AT_MOST && sc.render(t, g, total).Some? then sc.render(t, g, total)
    else sc.render(short, g, total)
  }

  /** The scenario an outage of so many locations falls under. */
  function OutageScenario(count: nat, total: nat): Template {
    if total > 0 && count == total then AllDown else if count == 1 then OneDown else SomeDown
  }

  function OutageMessage(sc: Scenarios, g: Groups, total: nat): Option<string> {
    match OutageScenario(|g.down|, total)
    case SomeDown => Several(sc, SomeDown, SomeDownShort, |g.down|, g, total)
    case t => One(sc, t, g, total)
  }

  function MaintenanceScenario(count: nat): Template {
    if count == 1 then OneMaintained else SomeMaintained
  }

  function MaintenanceMessage(sc: Scenarios, g: Groups, total: nat): Option<string> {
    if |g.maintenance| == 1 then One(sc, OneMaintained, g, total)
    else Several(sc, SomeMaintained, SomeMaintainedShort, |g.maintenance|, g, total)
  }

  function PartialMessage(sc: Scenarios, g: Groups, total: nat): Option<string> {
    if |g.partial| == 1 then One(sc, OnePartial, g, total)
    else Several(sc, SomePartial, SomePartialShort, |g.partial|, g, total)
  }

  function Combined(sc: Scenarios, outage: string, maintenance: string, g: Groups, total: nat): Option<string> {
    if outage == "" then Some(maintenance)
    else if maintenance == "" then Some(outage)
    else if sc.fits(outage + " " + maintenance) then Some(outage + " " + maintenance)
    else sc.render(DownAndMaintained, g, total)
  }

  function NamesNone(g: Groups): bool {
    g.down == map[] && g.partial == map[] && g.maintenance == map[]
  }

  /** The outage and maintenance part of a status. */
  function TroubleMessage(sc: Scenarios, g: Groups, total: nat): Option<string> {
    var outage := if g.down != map[] then OutageMessage(sc, g, total) else Some("");
    var maintenance := if g.maintenance != map[] then MaintenanceMessage(sc, g, total) else Some("");
    if outage.None? || maintenance.None? then None else Combined(sc, outage.value, maintenance.value, g, total)
  }

  /** The target of one review: what is down or in maintenance comes before what is partial, and the
      healthy message is written when all is well, or kept while nothing was named before. None when
      a template cannot be rendered, which fails the whole pass. */
  function TargetFor(sc: Scenarios, g: Groups, total: nat, allHealthy: bool, previous: Option<Managed>): Option<Target> {
    var healthy := One(sc, AllHealthy, g, total);
    var message :=
      if g.down != map[] || g.maintenance != map[] then TroubleMessage(sc, g, total)
      else if g.partial != map[] then PartialMessage(sc, g, total)
      else if allHealthy then healthy
      else if healthy.Some? && StillHealthy(previous, healthy.value) then healthy
      else Some("");
    if healthy.None? || message.None? then None else Some(Target(message.value, healthy.value, g))
  }

  predicate StillHealthy(previous: Option<Managed>, healthy: string) {
    if previous.None? then healthy == "" else NamesNone(previous.value.groups) && previous.value.message == healthy
  }

  /** What is rendered can be written. */
  lemma TargetIsTarget(sc: Scenarios, g: Groups, total: nat, allHealthy: bool, previous: Option<Managed>)
    requires Sensible(sc)
    ensures var t := TargetFor(sc, g, total, allHealthy, previous);
            t.Some? ==> (t.value.message == "" || IsLine(t.value.message)) && (t.value.healthy == "" || IsLine(t.value.healthy)) && t.value.groups == g
  {
    assert '\n' !in " " && '\r' !in " ";
  }

  /** The whole message in terms of its parts. What is down and what is in maintenance are both named,
      joined or by the mixed text when that is too long; what is partial is named only when nothing is
      either; and the healthy message only when nothing is named. */
  lemma MessageInParts(sc: Scenarios, g: Groups, total: nat, allHealthy: bool, previous: Option<Managed>)
    requires TargetFor(sc, g, total, allHealthy, previous).Some?
    ensures var message := TargetFor(sc, g, total, allHealthy, previous).value.message;
            && (g.down != map[] && g.maintenance == map[] ==> Some(message) == OutageMessage(sc, g, total))
            && (g.down == map[] && g.maintenance != map[] ==> Some(message) == MaintenanceMessage(sc, g, total))
            && (g.down != map[] && g.maintenance != map[] ==>
                  OutageMessage(sc, g, total).Some? && MaintenanceMessage(sc, g, total).Some? &&
                  var outage, maintenance := OutageMessage(sc, g, total).value, MaintenanceMessage(sc, g, total).value;
                  && (outage == "" ==> message == maintenance) && (maintenance == "" ==> message == outage)
                  && (outage != "" && maintenance != "" ==>
                        Some(message) == if sc.fits(outage + " " + maintenance) then Some(outage + " " + maintenance)
                                         else sc.render(DownAndMaintained, g, total)))
            && (g.down == map[] && g.maintenance == map[] && g.partial != map[] ==> Some(message) == PartialMessage(sc, g, total))
            && (NamesNone(g) && message != "" ==> AllHealthy in sc.enabled && Some(message) == sc.render(AllHealthy, g, total))
            // while not all is well it is only kept: when it is what the squad shows, for no named location
            && (NamesNone(g) && !allHealthy && message != "" ==>
                  previous.Some? && NamesNone(previous.value.groups) && previous.value.message == message)
            && (NamesNone(g) && previous.Some? && NamesNone(previous.value.groups) && AllHealthy in sc.enabled ==>
                  (sc.render(AllHealthy, g, total) == Some(previous.value.message) ==> message == previous.value.message))
            && (NamesNone(g) && allHealthy && AllHealthy in sc.enabled ==> Some(message) == sc.render(AllHealthy, g, total))
  {
  }

  /** The outage text: that of the scenario the number of locations falls under, with the names when they
      are few and can be rendered. */
  lemma OutageInParts(sc: Scenarios, g: Groups, total: nat)
    requires g.down != map[]
    ensures var n, message := |g.down|, OutageMessage(sc, g, total);
            && (n == total && AllDown in sc.enabled ==> message == sc.render(AllDown, g, total))
            && (n == 1 && total != 1 && OneDown in sc.enabled ==> message == sc.render(OneDown, g, total))
            && (n > 1 && n != total && SomeDown in sc.enabled ==>
                  message == if n <= 3 && sc.render(SomeDown, g, total).Some? then sc.render(SomeDown, g, total) else sc.render(SomeDownShort, g, total))
            && ((n == total && AllDown !in sc.enabled) || (n == 1 && total != 1 && OneDown !in sc.enabled) || (n > 1 && n != total && SomeDown !in sc.enabled) ==>
                  message == Some(""))
  {
    assert |g.down| > 0;
  }

  /** The maintenance and partial texts, by the same rule without the case of all locations. */
  lemma OthersInParts(sc: Scenarios, g: Groups, total: nat)
    ensures |g.maintenance| == 1 ==> MaintenanceMessage(sc, g, total) == if OneMaintained in sc.enabled then sc.render(OneMaintained, g, total) else Some("")
    ensures |g.maintenance| > 1 ==>
              MaintenanceMessage(sc, g, total) ==
              if SomeMaintained !in sc.enabled then Some("")
              else if |g.maintenance| <= 3 && sc.render(SomeMaintained, g, total).Some? then sc.render(SomeMaintained, g, total)
              else sc.render(SomeMaintainedShort, g, total)
    ensures |g.partial| == 1 ==> PartialMessage(sc, g, total) == if OnePartial in sc.enabled then sc.render(OnePartial, g, total) else Some("")
    ensures |g.partial| > 1 ==>
              PartialMessage(sc, g, total) ==
              if SomePartial !in sc.enabled then Some("")
              else if |g.partial| <= 3 && sc.render(SomePartial, g, total).Some? then sc.render(SomePartial, g, total)
              else sc.render(SomePartialShort, g, total)
  {
  }

  predicate SilentOn(sc: Scenarios, g: Groups, total: nat) {
    && (g.down == map[] || OutageScenario(|g.down|, total) !in sc.enabled)
    && (g.maintenance == map[] || MaintenanceScenario(|g.maintenance|) !in sc.enabled)
  }

  /** While something is down or in maintenance, the message is empty exactly when the scenarios for
      the present numbers of such locations are switched off. */
  lemma EmptyExactly(sc: Scenarios, g: Groups, total: nat, allHealthy: bool, previous: Option<Managed>)
    requires Sensible(sc) && (g.down != map[] || g.maintenance != map[])
    requires TargetFor(sc, g, total, allHealthy, previous).Some?
    ensures TargetFor(sc, g, total, allHealthy, previous).value.message == "" <==> SilentOn(sc, g, total)
  {
    assert g.maintenance != map[] ==> |g.maintenance| > 0;
  }
}
