/**
  What one startup and the process lifetime after it make of a disk, file by file: from the files
  before it, the staged ones and what the owners wrote, without the transaction in between.
*/
module StartupSpec {
  import opened Wrappers
  import opened Volumes
  import opened TransactionSpec
  import opened Apply

  datatype Action =
    | Write(name: Name, content: Content)
    | Delete(name: Name)
    | StageRestore(files: map<Name, Content>)
    | StageMerge(sameInstruction: bool)

  /** Everything one startup and the process lifetime after it take from the environment. */
  datatype Plan = Plan(
    power: nat,
    sanitize: (Name, Content) -> Option<Content>,
    restoreFault: Fault,
    mergeFault: Fault,
    mergeState: map<Name, Content> -> Option<map<Name, Content>>,
    early: seq<(Name, Content)>,
    rejectEarly: bool,
    late: seq<(Name, Content)>,
    rejectLate: bool,
    actions: seq<Action>)

  datatype Disk = Disk(data: map<Name, Content>, restore: Dirs, merge: Dirs)

  // ----- what the owners write -----

  function Last(writes: seq<(Name, Content)>, n: Name): Option<Content> {
    if writes == [] then None
    else
      var (m, c) := writes[|writes| - 1];
      if m == n then Some(c) else Last(writes[..|writes| - 1], n)
  }

  lemma LastOneMore(writes: seq<(Name, Content)>, i: nat, n: Name)
    requires i < |writes|
    ensures Last(writes[..i + 1], n) == if writes[i].0 == n then Some(writes[i].1) else Last(writes[..i], n)
  {
    assert writes[..i + 1][..i] == writes[..i];
  }

  /** The file is the one last written, or else what it was; a covered file is only overwritten. */
  predicate FileOverwritten(k: Package, before: map<Name, Content>, writes: seq<(Name, Content)>, after: map<Name, Content>, n: Name) {
    && (n in after <==> n in before || (!Covers(k, n) && Last(writes, n).Some?))
    && (n in after && n in before ==> after[n] == if Last(writes, n).Some? then Last(writes, n).value else before[n])
    && (n in after && n !in before ==> Last(writes, n) == Some(after[n]))
  }

  ghost predicate IsOverwritten(k: Package, before: map<Name, Content>, writes: seq<(Name, Content)>, after: map<Name, Content>) {
    forall n {:trigger FileOverwritten(k, before, writes, after, n)} :: FileOverwritten(k, before, writes, after, n)
  }

  predicate FileWritten(before: map<Name, Content>, writes: seq<(Name, Content)>, after: map<Name, Content>, n: Name) {
    if Last(writes, n).Some? then n in after && after[n] == Last(writes, n).value else Same(after, before, n)
  }

  ghost predicate IsWritten(before: map<Name, Content>, writes: seq<(Name, Content)>, after: map<Name, Content>) {
    forall n {:trigger FileWritten(before, writes, after, n)} :: FileWritten(before, writes, after, n)
  }

  // ----- the startup -----

  ghost predicate IsAtRest(d: Disk) {
    && (d.restore == NO_DIRS || d.merge == NO_DIRS)
    && Idle(Restore, View(d.data, d.restore)) && Idle(NodeMerge, View(d.data, d.merge))
  }

  /** A covered file nobody wrote is the cleaned staged one or absent; a written file holds its last
      write, if it was there to be overwritten or is not covered. */
  predicate FileRestored(before: map<Name, Content>, staged: map<Name, Content>, plan: Plan, after: map<Name, Content>, n: Name) {
    var last := Last(plan.early + plan.late, n);
    if Covers(Restore, n) then
      && (n in after <==> n in staged)
      && (n in staged ==> Some(after[n]) == if last.Some? then last else plan.sanitize(n, staged[n]))
    else if last.Some? then n in after && after[n] == last.value
    else Same(after, before, n)
  }

  /** The covered files are the old ones, and the others hold what was written last. */
  predicate FileReturned(k: Package, before: map<Name, Content>, writes: seq<(Name, Content)>, after: map<Name, Content>, n: Name) {
    if Covers(k, n) || Last(writes, n).None? then Same(after, before, n) else n in after && after[n] == Last(writes, n).value
  }

  predicate HasNoDirs(d: Disk) {
    d.restore == NO_DIRS && d.merge == NO_DIRS
  }

  /** A clean staged restore is installed and confirmed, or rolled back when an owner rejects it. */
  ghost predicate Restores(before: Disk, plan: Plan, o: Outcome<()>, after: Disk) {
    CanApply(before.restore) && Clean(before.restore.pending.value.files, plan.sanitize) && plan.restoreFault.NoFault? ==>
      && HasNoDirs(after) && (o.Refused? <==> plan.rejectEarly || plan.rejectLate)
      && forall n ::
           if o.Refused? then FileReturned(Restore, before.data, plan.early + plan.late, after.data, n)
           else FileRestored(before.data, before.restore.pending.value.files, plan, after.data, n)
  }

  /** A restore with a refused file stays staged, and the startup goes on without it. */
  ghost predicate Declines(before: Disk, plan: Plan, o: Outcome<()>, after: Disk) {
    CanApply(before.restore) && !Clean(before.restore.pending.value.files, plan.sanitize) ==>
      && !o.Refused? && IsWritten(before.data, plan.early, after.data)
      && CanApply(after.restore) && after.restore.pending.value.files.Keys == before.restore.pending.value.files.Keys
  }

  /** The merged registry and speed results, overwritten by what the owners wrote later. */
  predicate FileMerged(d: map<Name, Content>, merged: map<Name, Content>, late: seq<(Name, Content)>, after: map<Name, Content>, n: Name) {
    if Last(late, n).Some? then n in after && after[n] == Last(late, n).value
    else if Covers(NodeMerge, n) then n in after && n in merged && after[n] == merged[n]
    else Same(after, d, n)
  }

  predicate Mergeable(before: Disk, plan: Plan, d: map<Name, Content>) {
    && before.restore == NO_DIRS && before.merge.pending.Some? && before.merge.pending.value.manifest.Some?
    && plan.mergeFault.NoFault? && plan.mergeState(d).Some? && forall n :: n in MERGE_NAMES ==> n in d
  }

  /** A pending merge is computed from the files as the early owners left them, installed and
      confirmed, or rolled back; without the means for it the startup goes on. */
  ghost predicate Merges(before: Disk, plan: Plan, o: Outcome<()>, after: Disk) {
    before.restore == NO_DIRS ==>
      forall d {:trigger IsWritten(before.data, plan.early, d)} :: IsWritten(before.data, plan.early, d) ==>
        if Mergeable(before, plan, d) then
          && HasNoDirs(after) && (o.Refused? <==> plan.rejectLate)
          && forall n ::
               if o.Refused? then FileReturned(NodeMerge, d, plan.late, after.data, n)
               else FileMerged(d, plan.mergeState(d).value, plan.late, after.data, n)
        else plan.mergeFault.NoFault? || before.merge.pending.None? ==> !o.Refused? && after == before.(data := d)
  }

  /** What a startup that is not cut off comes to, from a disk at rest. */
  ghost predicate Starts(before: Disk, plan: Plan, o: Outcome<()>, after: Disk) {
    Restores(before, plan, o, after) && Declines(before, plan, o, after) && Merges(before, plan, o, after)
  }

  // ----- the lifetime -----

  ghost function Acted(d: Disk, a: Action): Disk {
    match a
    case Write(n, c) => d.(data := d.data[n := c])
    case Delete(n) => d.(data := d.data - {n})
    case StageRestore(files) => if d.merge != NO_DIRS then d else d.(restore := Dirs(Some(StateDir(Some(files.Keys), files)), None, None))
    case StageMerge(same) =>
      if d.restore != NO_DIRS || (d.merge.pending.Some? && (d.merge.pending.value.manifest.None? || same)) then d
      else d.(merge := Dirs(Some(StateDir(Some(AllNames(NodeMerge)), map[])), None, None))
  }

  ghost function Lived(d: Disk, actions: seq<Action>): Disk {
    if actions == [] then d else Acted(Lived(d, actions[..|actions| - 1]), actions[|actions| - 1])
  }

  /** One startup in a run: the disk before it, after recovery, when the process is up, and in the end. */
  datatype Past = Past(before: Disk, recovered: Disk, up: Disk, after: Disk, outcome: Outcome<()>)

  ghost predicate Lawful(p: Past, plan: Plan) {
    && (IsAtRest(p.before) ==> p.recovered == p.before && (!p.outcome.PowerLoss? ==> Starts(p.before, plan, p.outcome, p.up)))
    && (p.outcome.Done? ==> IsAtRest(p.recovered) && Starts(p.recovered, plan, p.outcome, p.up) && p.after == Lived(p.up, plan.actions))
    && (p.outcome.Refused? ==> p.after == p.up)
  }
}
