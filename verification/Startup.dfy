/**
  Whole runs: startups in the order of main.go, each cut off by a power loss at an
  arbitrary step, with staging from the admin panel in between.
*/
module Startup {
  import opened Wrappers
  import opened Volumes
  import opened TransactionSpec
  import opened Transactions
  import opened Apply
  import opened Recovery
  import opened StartupSpec

  // ----- all or nothing, end to end -----

  /** Recovery restarted after each power loss, until one run completes or refuses. */
  method RecoverRepeatedly(vol: Volume, k: Package, powers: seq<nat>) returns (o: Outcome<()>)
    requires Fated(k, vol.ViewOf(k), vol.pre, vol.post, vol.committed)
    modifies vol`data, vol`restore, vol`merge, vol`power
    ensures o.PowerLoss? ==> powers == [] || vol.power == 0
    ensures vol.OtherDirs(k) == old(vol.OtherDirs(k))
    ensures o.PowerLoss? ==> Fated(k, vol.ViewOf(k), vol.pre, vol.post, vol.committed)
    ensures o.Done? ==> Idle(k, vol.ViewOf(k)) && vol.data == if vol.committed then vol.post else vol.pre
    ensures o.Refused? ==> vol.data == vol.post && (TornMarker(vol.DirsOf(k)) || LostMarker(vol.DirsOf(k)))
  {
    for i := 0 to |powers|
      invariant i > 0 ==> vol.power == 0
      invariant vol.OtherDirs(k) == old(vol.OtherDirs(k))
      invariant Fated(k, vol.ViewOf(k), vol.pre, vol.post, vol.committed)
    {
      vol.power := powers[i];
      var recovered := RecoverFated(vol, k);
      if !recovered.PowerLoss? {
        return if recovered.Done? then Done(()) else Refused(recovered.error);
      }
    }
    o := PowerLoss;
  }

  /** One recovery, when it is known whether the marker has been written out. */
  method RecoverFated(vol: Volume, k: Package) returns (o: Outcome<bool>)
    requires Fated(k, vol.ViewOf(k), vol.pre, vol.post, vol.committed)
    modifies vol`data, vol`restore, vol`merge, vol`power
    ensures o.PowerLoss? ==> vol.power == 0
    ensures vol.OtherDirs(k) == old(vol.OtherDirs(k))
    ensures o.PowerLoss? ==> Fated(k, vol.ViewOf(k), vol.pre, vol.post, vol.committed)
    ensures o.Done? ==> Idle(k, vol.ViewOf(k)) && vol.data == if vol.committed then vol.post else vol.pre
    ensures o.Refused? ==> vol.data == vol.post && (TornMarker(vol.DirsOf(k)) || LostMarker(vol.DirsOf(k)))
  {
    ghost var v := vol.ViewOf(k);
    RecoverableExceptMarker(k, v, vol.pre, vol.post);
    if CanRecover(k, v) {
      FateIsSettled(k, v, vol.pre, vol.post, vol.committed);
    }
    o := Recover(vol, k);
  }

  method RecoverOnce(vol: Volume, k: Package) returns (o: Outcome<()>)
    requires PreBound(k, vol.ViewOf(k), vol.pre, vol.post) || PostBound(k, vol.ViewOf(k), vol.post)
    modifies vol`data, vol`restore, vol`merge, vol`power
    ensures o.PowerLoss? ==> vol.power == 0
    ensures vol.OtherDirs(k) == old(vol.OtherDirs(k))
    ensures PreBound(k, vol.ViewOf(k), vol.pre, vol.post) || PostBound(k, vol.ViewOf(k), vol.post)
    ensures o.Done? ==> Idle(k, vol.ViewOf(k)) && (vol.data == vol.pre || vol.data == vol.post)
    ensures old(vol.DirsOf(k).applied.None? && vol.DirsOf(k).rollback.None?) ==> o.Done? && vol.ViewOf(k) == old(vol.ViewOf(k))
    ensures o.Refused? ==> vol.data == vol.post && (TornMarker(vol.DirsOf(k)) || LostMarker(vol.DirsOf(k)))
  {
    ghost var v := vol.ViewOf(k);
    RecoverableExceptMarker(k, v, vol.pre, vol.post);
    if CanRecover(k, v) {
      RecoveredIsSettled(k, v, vol.pre, vol.post);
    }
    var recovered := Recover(vol, k);
    if recovered.PowerLoss? {
      return PowerLoss;
    }
    if recovered.Refused? {
      return Refused(recovered.error);
    }
    o := Done(());
  }

  /** Recovery settles the transaction, and recovering again changes nothing. */
  lemma RecoveredIsSettled(k: Package, v: View, pre: map<Name, Content>, post: map<Name, Content>)
    requires PreBound(k, v, pre, post) || PostBound(k, v, post)
    requires CanRecover(k, v)
    ensures Idle(k, Recovered(k, v))
    ensures Recovered(k, v).data == pre || Recovered(k, v).data == post
    ensures CanRecover(k, Recovered(k, v)) && Recovered(k, Recovered(k, v)) == Recovered(k, v)
  {
    if v.dirs.rollback.Some? {
      AllOrNothing(k, v, pre, post);
    }
  }

  /** A restore that is applied and confirmed, cut off anywhere, then recovered by startups that are
      themselves cut off: the files end as they were, or exactly as staged, and only a torn or lost
      marker leaves the directories behind, with the staged files in place. */
  method RestoreUnderPowerLoss(vol: Volume, sanitize: (Name, Content) -> Option<Content>, fault: Fault, powers: seq<nat>)
    returns (o: Outcome<()>)
    requires Idle(Restore, vol.ViewOf(Restore))
    modifies vol
    ensures o.PowerLoss? ==> powers == [] || vol.power == 0
    ensures vol.merge == old(vol.merge)
    // the staged files remain exactly when the marker was written out
    ensures o.Done? ==> Idle(Restore, vol.ViewOf(Restore))
    ensures o.Done? ==>
              if vol.committed then
                && old(vol.restore.pending).Some? && Clean(old(vol.restore.pending).value.files, sanitize)
                && vol.data == Target(Restore, old(vol.data), Cleaned(old(vol.restore.pending).value.files, sanitize))
              else vol.data == old(vol.data)
    ensures o.Refused? ==>
              && (TornMarker(vol.restore) || LostMarker(vol.restore))
              && old(vol.restore.pending).Some? && Clean(old(vol.restore.pending).value.files, sanitize)
              && vol.data == Target(Restore, old(vol.data), Cleaned(old(vol.restore.pending).value.files, sanitize))
  {
    vol.pre, vol.post, vol.committed := vol.data, vol.data, false;
    var applied := ApplyRestore(vol, sanitize, fault);
    if applied.Refused? || (applied.Done? && !applied.value) {
      return Done(());
    }
    if applied.Done? {
      var confirmed := ConfirmRestore(vol);
      if confirmed.Done? {
        return Done(());
      }
    }
    if vol.restore.rollback.None? && vol.restore.applied.None? {
      return Done(());
    }
    o := RecoverRepeatedly(vol, Restore, powers);
  }

  /** The same for a node merge: registry and speed results change together or not at all. */
  method MergeUnderPowerLoss(vol: Volume, merged: Option<map<Name, Content>>, fault: Fault, powers: seq<nat>)
    returns (o: Outcome<()>)
    requires Idle(NodeMerge, vol.ViewOf(NodeMerge))
    requires merged.Some? ==> forall n :: n in merged.value <==> Covers(NodeMerge, n)
    modifies vol
    ensures o.PowerLoss? ==> powers == [] || vol.power == 0
    ensures vol.restore == old(vol.restore)
    ensures o.Done? ==> Idle(NodeMerge, vol.ViewOf(NodeMerge))
    ensures o.Done? ==>
              if vol.committed then merged.Some? && vol.data == old(vol.data) + merged.value else vol.data == old(vol.data)
    ensures o.Refused? ==>
              && (TornMarker(vol.merge) || LostMarker(vol.merge))
              && merged.Some? && vol.data == old(vol.data) + merged.value
  {
    vol.pre, vol.post, vol.committed := vol.data, vol.data, false;
    var applied := ApplyMerge(vol, merged, fault);
    if applied.Refused? || (applied.Done? && !applied.value) {
      return Done(());
    }
    if applied.Done? {
      var confirmed := ConfirmMerge(vol);
      if confirmed.Done? {
        return Done(());
      }
    }
    if vol.merge.rollback.None? && vol.merge.applied.None? {
      return Done(());
    }
    o := RecoverRepeatedly(vol, NodeMerge, powers);
  }

  // ----- owners between apply and confirmation -----

  /** While a transaction waits for confirmation the state owners may have rewritten or deleted any
      covered files. Rolling it back still restores the originals if and only if they created no
      file the transaction had not installed. */
  lemma RollbackSurvivesOwners(k: Package, v: View, pre: map<Name, Content>, post: map<Name, Content>, written: map<Name, Content>)
    requires Complete(k, v, pre, post)
    requires forall n :: !Covers(k, n) ==> Same(written, pre, n)
    ensures CanRecover(k, v.(data := written)) && Recovered(k, v.(data := written)).data == pre
            <==> forall n :: Covers(k, n) && n in written ==> n in post
  {
    var w := v.(data := written);
    var sd, rb := v.dirs.applied.value, v.dirs.rollback.value.files;
    forall n
      ensures Includes(k, sd, n) <==> Covers(k, n) && n in post
      ensures if Covers(k, n) then Same(rb, pre, n) && (n in post ==> n !in sd.files)
              else n !in rb && n !in sd.files
    {
      StationOf(k, Applied, v, pre, post, n);
    }
    if forall n :: Covers(k, n) && n in written ==> n in post {
      assert CanRecover(k, w);
      forall n ensures Same(Recovered(k, w).data, pre, n) {
        assert Covers(k, n) <==> n in AllNames(k);
      }
      SameEverywhere(Recovered(k, w).data, pre);
    } else {
      var n :| Covers(k, n) && n in written && n !in post;
      if CanRecover(k, w) {
        assert !Blocked(k, sd, written, rb, n);
        assert n !in pre && n in Recovered(k, w).data;
      }
    }
  }

  /** The failing input: an original that the backup does not include is written again before
      confirmation, and recovery refuses the directory. */
  lemma OwnerCanBlockRollback()
    ensures
      var n := "telegram_config.json";
      var dirs := Dirs(None, Some(StateDir(Some({}), map[])), Some(RollbackDir(map[n := "old"], Missing)));
      && Complete(Restore, View(map[], dirs), map[n := "old"], map[])
      && !CanRecover(Restore, View(map[n := "new"], dirs))
  {
    var n := "telegram_config.json";
    assert n == RESTORE_NAMES[6];
    var sd, rb := StateDir(Some({}), map[]), RollbackDir(map[n := "old"], Missing);
    var dirs := Dirs(None, Some(sd), Some(rb));
    var v := View(map[], dirs);
    forall m | Covers(Restore, m) ensures Installed(sd, v, rb.files, map[n := "old"], map[], m) {
    }
    assert Mixed(Restore, sd, v, rb.files, map[n := "old"], map[]);
    assert Blocked(Restore, sd, map[n := "new"], rb.files, n);
  }

  // ----- runs of startups -----

  ghost predicate Bound(k: Package, v: View, pre: map<Name, Content>, post: map<Name, Content>) {
    PreBound(k, v, pre, post) || PostBound(k, v, post)
  }

  /** The invariant of every reachable disk: one package at most has directories, and its
      transaction is bound to the files before it or to the files it installed. */
  ghost predicate Consistent(vol: Volume)
    reads vol
  {
    && (vol.restore == NO_DIRS || vol.merge == NO_DIRS)
    && (vol.merge == NO_DIRS ==> Bound(Restore, vol.ViewOf(Restore), vol.pre, vol.post))
    && (vol.restore == NO_DIRS ==> Bound(NodeMerge, vol.ViewOf(NodeMerge), vol.pre, vol.post))
  }

  ghost predicate AtRest(vol: Volume)
    reads vol
  {
    IsAtRest(Disk(vol.data, vol.restore, vol.merge))
  }

  ghost predicate Waiting(vol: Volume, k: Package)
    reads vol
  {
    Complete(k, vol.ViewOf(k), vol.pre, vol.post) && vol.OtherDirs(k) == NO_DIRS
  }

  lemma WriteKeepsComplete(k: Package, v: View, pre: map<Name, Content>, post: map<Name, Content>, n: Name, c: Content)
    requires Complete(k, v, pre, post)
    requires Covers(k, n) ==> n in post
    ensures Complete(k, View(v.data[n := c], v.dirs), if Covers(k, n) then pre else pre[n := c], post[n := c])
  {
    var w := View(v.data[n := c], v.dirs);
    var sd, rb := v.dirs.applied.value, v.dirs.rollback.value.files;
    var pre', post' := if Covers(k, n) then pre else pre[n := c], post[n := c];
    forall m ensures Includes(k, sd, m) <==> Covers(k, m) && m in post' {
      StationOf(k, Applied, v, pre, post, m);
    }
    forall m
      ensures if Covers(k, m) then Installed(sd, w, rb, pre', post', m)
              else Same(w.data, pre', m) && Same(w.data, post', m) && m !in rb && m !in sd.files
    {
      StationOf(k, Applied, v, pre, post, m);
    }
  }

  function Now(vol: Volume): Disk
    reads vol`data, vol`restore, vol`merge
  {
    Disk(vol.data, vol.restore, vol.merge)
  }

  /** What the owners do after a transaction was applied: overwrite installed files, and any file the
      transaction does not cover. */
  method OverwriteInstalled(vol: Volume, k: Package, writes: seq<(Name, Content)>) returns (o: Outcome<()>)
    requires Waiting(vol, k)
    modifies vol
    ensures o.PowerLoss? ==> vol.power == 0
    ensures !o.Refused? && Waiting(vol, k)
    ensures o.Done? ==> IsOverwritten(k, old(vol.data), writes, vol.data) && SameCovered(k, vol.pre, old(vol.pre))
  {
    NothingOverwritten(k, vol.data);
    for i := 0 to |writes|
      invariant Waiting(vol, k)
      invariant IsOverwritten(k, old(vol.data), writes[..i], vol.data) && SameCovered(k, vol.pre, old(vol.pre))
    {
      ghost var middle := vol.data;
      var _ :- OverwriteOne(vol, k, writes[i].0, writes[i].1);
      OverwrittenStep(k, old(vol.data), writes, i, middle, vol.data);
    }
    assert writes[..|writes|] == writes;
    o := Done(());
  }

  method OverwriteOne(vol: Volume, k: Package, n: Name, c: Content) returns (o: Outcome<()>)
    requires Waiting(vol, k)
    modifies vol
    ensures o.PowerLoss? ==> vol.power == 0
    ensures !o.Refused? && Waiting(vol, k)
    ensures o.Done? ==> SameCovered(k, vol.pre, old(vol.pre))
    ensures o.Done? ==> vol.data == if n in old(vol.data) || !Covers(k, n) then old(vol.data)[n := c] else old(vol.data)
  {
    var names := Names(k);
    if n in vol.data || n !in names {
      WriteKeepsComplete(k, vol.ViewOf(k), vol.pre, vol.post, n, c);
      var _ :- vol.Step(k, View(vol.data[n := c], vol.DirsOf(k)));
      vol.pre, vol.post := if n in names then vol.pre else vol.pre[n := c], vol.post[n := c];
    }
    o := Done(());
  }

  ghost predicate SameCovered(k: Package, a: map<Name, Content>, b: map<Name, Content>) {
    forall n :: Covers(k, n) ==> Same(a, b, n)
  }

  lemma NothingOverwritten(k: Package, data: map<Name, Content>)
    ensures IsOverwritten(k, data, [], data) && IsWritten(data, [], data)
  {
  }

  lemma OverwrittenStep(k: Package, before: map<Name, Content>, writes: seq<(Name, Content)>, i: nat, middle: map<Name, Content>, after: map<Name, Content>)
    requires i < |writes| && IsOverwritten(k, before, writes[..i], middle)
    requires after == if writes[i].0 in middle || !Covers(k, writes[i].0) then middle[writes[i].0 := writes[i].1] else middle
    ensures IsOverwritten(k, before, writes[..i + 1], after)
  {
    var more := writes[..i + 1];
    forall n ensures FileOverwritten(k, before, more, after, n) {
      LastOneMore(writes, i, n);
      assert FileOverwritten(k, before, writes[..i], middle, n);
    }
  }

  lemma WrittenStep(before: map<Name, Content>, writes: seq<(Name, Content)>, i: nat, middle: map<Name, Content>, after: map<Name, Content>)
    requires i < |writes| && IsWritten(before, writes[..i], middle) && after == middle[writes[i].0 := writes[i].1]
    ensures IsWritten(before, writes[..i + 1], after)
  {
    var more := writes[..i + 1];
    forall n ensures FileWritten(before, more, after, n) {
      LastOneMore(writes, i, n);
      assert FileWritten(before, writes[..i], middle, n);
    }
  }

  /** What was written can only be one thing. */
  lemma WrittenOnce(before: map<Name, Content>, writes: seq<(Name, Content)>, a: map<Name, Content>, b: map<Name, Content>)
    requires IsWritten(before, writes, a) && IsWritten(before, writes, b)
    ensures a == b
  {
    forall n ensures Same(a, b, n) {
      assert FileWritten(before, writes, a, n) && FileWritten(before, writes, b, n);
    }
    SameEverywhere(a, b);
  }

  /** What the owners do when no transaction is open: anything. */
  method WriteFreely(vol: Volume, n: Name, c: Option<Content>) returns (o: Outcome<()>)
    requires AtRest(vol)
    modifies vol
    ensures o.PowerLoss? ==> vol.power == 0
    ensures !o.Refused? && AtRest(vol)
    ensures vol.restore == old(vol.restore) && vol.merge == old(vol.merge)
    ensures o.Done? ==> vol.data == if c.Some? then old(vol.data)[n := c.value] else old(vol.data) - {n}
  {
    var _ :- vol.Step(Restore, View(if c.Some? then vol.data[n := c.value] else vol.data - {n}, vol.restore));
    o := Done(());
  }

  method WriteAll(vol: Volume, writes: seq<(Name, Content)>) returns (o: Outcome<()>)
    requires AtRest(vol)
    modifies vol
    ensures o.PowerLoss? ==> vol.power == 0
    ensures !o.Refused? && AtRest(vol)
    ensures vol.restore == old(vol.restore) && vol.merge == old(vol.merge)
    ensures o.Done? ==> IsWritten(old(vol.data), writes, vol.data)
  {
    NothingOverwritten(Restore, vol.data);
    for i := 0 to |writes|
      invariant AtRest(vol) && vol.restore == old(vol.restore) && vol.merge == old(vol.merge)
      invariant IsWritten(old(vol.data), writes[..i], vol.data)
    {
      ghost var middle := vol.data;
      var _ :- WriteFreely(vol, writes[i].0, Some(writes[i].1));
      WrittenStep(old(vol.data), writes, i, middle, vol.data);
    }
    assert writes[..|writes|] == writes;
    o := Done(());
  }

  /** Restorer.Stage under the guard of the merge coordinator: nothing is staged beside a merge. */
  method StageRestoreGuarded(vol: Volume, files: map<Name, Content>) returns (o: Outcome<()>)
    requires AtRest(vol) && forall n :: n in files ==> Covers(Restore, n)
    modifies vol
    ensures o.PowerLoss? ==> vol.power == 0
    ensures AtRest(vol) && vol.data == old(vol.data) && vol.merge == old(vol.merge)
    ensures o.Refused? <==> vol.merge != NO_DIRS
    ensures o.Refused? ==> vol.restore == old(vol.restore)
    ensures o.Done? ==> vol.restore == Dirs(Some(StateDir(Some(files.Keys), files)), None, None)
  {
    if vol.merge.pending.Some? || vol.merge.applied.Some? || vol.merge.rollback.Some? {
      return Refused(Busy);
    }
    if vol.restore.pending.Some? {
      var _ :- vol.Step(Restore, View(vol.data, NO_DIRS));
    }
    o := vol.Step(Restore, View(vol.data, Dirs(Some(StateDir(Some(files.Keys), files)), None, None)));
  }

  /** Coordinator.Stage. A pending directory that lost its instruction while being replaced is
      refused here and on every later call. */
  method StageMergeInstruction(vol: Volume, sameInstruction: bool, stateFileFirst: bool := false) returns (o: Outcome<()>)
    requires AtRest(vol)
    modifies vol`data, vol`restore, vol`merge, vol`power
    ensures o.PowerLoss? ==> vol.power == 0
    ensures AtRest(vol) && vol.data == old(vol.data) && vol.restore == old(vol.restore)
    ensures o.Refused? <==>
            || vol.restore != NO_DIRS
            || (old(vol.merge.pending).Some? && old(vol.merge.pending).value.manifest.None?)
    ensures o.Refused? ==> vol.merge == old(vol.merge)
    ensures o.Done? ==>
              if old(vol.merge.pending).Some? && sameInstruction then vol.merge == old(vol.merge) && vol.merge.pending.value.manifest.Some?
              else vol.merge == Dirs(Some(StateDir(Some(AllNames(NodeMerge)), map[])), None, None)
    ensures stateFileFirst && old(vol.power) == 1 && !sameInstruction && old(vol.merge.pending).Some? && old(vol.merge.pending).value.manifest.Some? ==>
              o.PowerLoss? && Stranded(vol.merge)
  {
    if vol.restore.pending.Some? || vol.restore.applied.Some? || vol.restore.rollback.Some? {
      return Refused(Busy);
    }
    if vol.merge.pending.Some? {
      if vol.merge.pending.value.manifest.None? {
        return Refused(Unreadable);
      }
      if sameInstruction {
        return Done(());
      }
      var removed := vol.RemoveState(NodeMerge, Pending, stateFileFirst);
      if removed.PowerLoss? {
        return PowerLoss;
      }
    }
    var all := set n | n in MERGE_NAMES;
    assert all == AllNames(NodeMerge);
    o := vol.Step(NodeMerge, View(vol.data, Dirs(Some(StateDir(Some(all), map[])), None, None)));
  }

  /** Both recoveries, merge first. Refusing is fatal to the startup. */
  method RecoverBoth(vol: Volume) returns (o: Outcome<()>)
    requires Consistent(vol)
    modifies vol`data, vol`restore, vol`merge, vol`power
    ensures o.PowerLoss? ==> vol.power == 0
    ensures Consistent(vol)
    ensures o.Done? ==> AtRest(vol) && (vol.data == vol.pre || vol.data == vol.post)
    ensures old(AtRest(vol)) ==> o.Done? && Now(vol) == old(Now(vol))
    ensures Stranded(old(vol.merge)) ==> vol.merge == old(vol.merge)
    ensures o.Refused? ==> vol.data == vol.post && exists k :: TornMarker(vol.DirsOf(k)) || LostMarker(vol.DirsOf(k))
  {
    if vol.merge == NO_DIRS {
      var nothing := Recover(vol, NodeMerge);
      o := RecoverOnce(vol, Restore);
    } else {
      var _ :- RecoverOnce(vol, NodeMerge);
      var nothing := Recover(vol, Restore);
      o := Done(());
    }
  }

  /** The rest of a startup whose restore or merge was applied: load, reject or confirm. */
  method LoadAndConfirm(vol: Volume, k: Package, writes: seq<(Name, Content)>, rejected: bool) returns (o: Outcome<()>)
    requires Waiting(vol, k)
    modifies vol
    ensures o.PowerLoss? ==> vol.power == 0
    ensures Consistent(vol)
    ensures o.Done? ==> !rejected && AtRest(vol) && vol.data == vol.post
    ensures o.Refused? ==> rejected && AtRest(vol) && vol.data == vol.pre
    ensures !o.PowerLoss? ==> HasNoDirs(Now(vol))
    ensures o.Done? ==> IsOverwritten(k, old(vol.data), writes, vol.data)
    ensures o.Refused? ==> forall n :: FileReturned(k, old(vol.pre), writes, vol.data, n)
  {
    ghost var pre, installed := vol.pre, vol.data;
    UncoveredIsKept(k, vol.ViewOf(k), vol.pre, vol.post);
    var _ :- OverwriteInstalled(vol, k, writes);
    if rejected {
      ghost var written := vol.data;
      UncoveredIsKept(k, vol.ViewOf(k), vol.pre, vol.post);
      var _ :- RollbackApplied(vol, k);
      forall n ensures FileReturned(k, pre, writes, vol.data, n) {
        assert FileOverwritten(k, installed, writes, written, n);
      }
      return Refused(Rejected);
    }
    if k.Restore? {
      o := ConfirmRestore(vol);
    } else {
      o := ConfirmMerge(vol);
    }
  }

  lemma UncoveredIsKept(k: Package, v: View, pre: map<Name, Content>, post: map<Name, Content>)
    requires Complete(k, v, pre, post)
    ensures forall n :: !Covers(k, n) ==> Same(v.data, pre, n)
  {
    forall n | !Covers(k, n) ensures Same(v.data, pre, n) {
      StationOf(k, Applied, v, pre, post, n);
    }
  }

  method Act(vol: Volume, a: Action) returns (o: Outcome<()>)
    requires AtRest(vol) && (a.StageRestore? ==> forall n :: n in a.files ==> Covers(Restore, n))
    modifies vol
    ensures o.PowerLoss? ==> vol.power == 0
    ensures AtRest(vol)
    ensures Stranded(old(vol.merge)) ==> vol.merge == old(vol.merge)
    ensures !o.PowerLoss? ==> Now(vol) == Acted(old(Now(vol)), a)
  {
    match a
    case Write(n, c) => o := WriteFreely(vol, n, Some(c));
    case Delete(n) => o := WriteFreely(vol, n, None);
    case StageRestore(files) => o := StageRestoreGuarded(vol, files);
    case StageMerge(same) => o := StageMergeInstruction(vol, same);
  }

  lemma LivedOneMore(d: Disk, actions: seq<Action>, i: nat)
    requires i < |actions|
    ensures Lived(d, actions[..i + 1]) == Acted(Lived(d, actions[..i]), actions[i])
  {
    assert actions[..i + 1][..i] == actions[..i];
  }

  /** The process lifetime after a successful startup, until it is stopped or loses power. */
  method Live(vol: Volume, actions: seq<Action>) returns (o: Outcome<()>)
    requires AtRest(vol)
    requires forall i :: 0 <= i < |actions| && actions[i].StageRestore? ==> forall n :: n in actions[i].files ==> Covers(Restore, n)
    modifies vol
    ensures o.PowerLoss? ==> vol.power == 0
    ensures AtRest(vol) && !o.Refused?
    ensures Stranded(old(vol.merge)) ==> vol.merge == old(vol.merge)
    ensures o.Done? ==> Now(vol) == Lived(old(Now(vol)), actions)
  {
    for i := 0 to |actions|
      invariant AtRest(vol) && (Stranded(old(vol.merge)) ==> vol.merge == old(vol.merge))
      invariant Now(vol) == Lived(old(Now(vol)), actions[..i])
    {
      o := Act(vol, actions[i]);
      if o.PowerLoss? {
        return;
      }
      LivedOneMore(old(Now(vol)), actions, i);
    }
    assert actions[..|actions|] == actions;
    o := Done(());
  }

  ghost predicate ValidPlan(plan: Plan) {
    && (forall i :: 0 <= i < |plan.actions| && plan.actions[i].StageRestore? ==>
          forall n :: n in plan.actions[i].files ==> Covers(Restore, n))
    && (forall data {:trigger plan.mergeState(data)} :: plan.mergeState(data).Some? ==>
          forall n :: n in plan.mergeState(data).value <==> Covers(NodeMerge, n))
  }

  /** One startup in the order of main.go after both recoveries, until the process is up. */
  method StartUp(vol: Volume, plan: Plan) returns (o: Outcome<()>)
    requires AtRest(vol) && ValidPlan(plan)
    modifies vol
    ensures o.PowerLoss? ==> vol.power == 0
    ensures Consistent(vol)
    ensures o.Done? ==> AtRest(vol)
    ensures Stranded(old(vol.merge)) ==> vol.merge == old(vol.merge)
    ensures !o.PowerLoss? ==> Starts(old(Now(vol)), plan, o, Now(vol))
  {
    ghost var before := Now(vol);
    vol.pre, vol.post := vol.data, vol.data;
    var restored := ApplyRestore(vol, plan.sanitize, plan.restoreFault);
    if restored.PowerLoss? {
      return PowerLoss;
    }
    if restored.Done? && restored.value {
      ghost var installed := vol.data;
      o := LoadAndConfirm(vol, Restore, plan.early + plan.late, plan.rejectEarly || plan.rejectLate);
      if !o.PowerLoss? {
        RestoredIsLawful(before, plan, installed, o, Now(vol));
      }
    } else {
      o := StartWithoutRestore(vol, plan);
    }
  }

  lemma RestoredIsLawful(before: Disk, plan: Plan, installed: map<Name, Content>, o: Outcome<()>, after: Disk)
    requires CanApply(before.restore) && Clean(before.restore.pending.value.files, plan.sanitize) && HasNoDirs(after) && !o.PowerLoss?
    requires installed == Target(Restore, before.data, Cleaned(before.restore.pending.value.files, plan.sanitize))
    requires o.Refused? <==> plan.rejectEarly || plan.rejectLate
    requires o.Done? ==> IsOverwritten(Restore, installed, plan.early + plan.late, after.data)
    requires o.Refused? ==> forall n :: FileReturned(Restore, before.data, plan.early + plan.late, after.data, n)
    ensures Starts(before, plan, o, after)
  {
    if o.Done? {
      forall n ensures FileRestored(before.data, before.restore.pending.value.files, plan, after.data, n) {
        assert FileOverwritten(Restore, installed, plan.early + plan.late, after.data, n);
      }
    }
  }

  /** The startup when no restore was applied: the early owners load, and the merge is tried. */
  method StartWithoutRestore(vol: Volume, plan: Plan) returns (o: Outcome<()>)
    requires AtRest(vol) && ValidPlan(plan)
    modifies vol
    ensures o.PowerLoss? ==> vol.power == 0
    ensures Consistent(vol)
    ensures o.Done? ==> AtRest(vol)
    ensures Stranded(old(vol.merge)) ==> vol.merge == old(vol.merge)
    ensures !o.PowerLoss? ==> Merges(old(Now(vol)), plan, o, Now(vol))
    ensures !o.PowerLoss? && old(vol.restore) != NO_DIRS ==>
              !o.Refused? && IsWritten(old(vol.data), plan.early, vol.data) && vol.restore == old(vol.restore)
  {
    ghost var before := Now(vol);
    var written := WriteAll(vol, plan.early);
    vol.pre, vol.post := vol.data, vol.data;
    if written.PowerLoss? {
      return PowerLoss;
    }
    ghost var d := vol.data;
    o := StartMerge(vol, plan);
    if !o.PowerLoss? {
      MergedIsLawful(before, plan, d, o, Now(vol));
    }
  }

  /** What becomes of the pending merge, and of the files as they are now. */
  ghost predicate MergesNow(before: Disk, plan: Plan, o: Outcome<()>, after: Disk) {
    if Mergeable(before, plan, before.data) then
      && HasNoDirs(after) && (o.Refused? <==> plan.rejectLate)
      && forall n ::
           if o.Refused? then FileReturned(NodeMerge, before.data, plan.late, after.data, n)
           else FileMerged(before.data, plan.mergeState(before.data).value, plan.late, after.data, n)
    else plan.mergeFault.NoFault? || before.merge.pending.None? ==> !o.Refused? && after == before
  }

  lemma MergedIsLawful(before: Disk, plan: Plan, d: map<Name, Content>, o: Outcome<()>, after: Disk)
    requires IsWritten(before.data, plan.early, d) && (before.restore == NO_DIRS ==> MergesNow(before.(data := d), plan, o, after))
    ensures Merges(before, plan, o, after)
  {
    forall d' | IsWritten(before.data, plan.early, d') ensures d' == d {
      WrittenOnce(before.data, plan.early, d, d');
    }
  }

  method StartMerge(vol: Volume, plan: Plan) returns (o: Outcome<()>)
    requires AtRest(vol) && ValidPlan(plan) && vol.pre == vol.post == vol.data
    modifies vol
    ensures o.PowerLoss? ==> vol.power == 0
    ensures Consistent(vol)
    ensures o.Done? ==> AtRest(vol)
    ensures Stranded(old(vol.merge)) ==> vol.merge == old(vol.merge)
    ensures !o.PowerLoss? && old(vol.restore) == NO_DIRS ==> MergesNow(old(Now(vol)), plan, o, Now(vol))
    ensures !o.PowerLoss? && old(vol.restore) != NO_DIRS ==> !o.Refused? && vol.data == old(vol.data) && vol.restore == old(vol.restore)
  {
    ghost var before := Now(vol);
    var merged := ApplyMerge(vol, plan.mergeState(vol.data), plan.mergeFault);
    if merged.PowerLoss? {
      return PowerLoss;
    }
    if merged.Done? && merged.value {
      ghost var installed := vol.data;
      o := LoadAndConfirm(vol, NodeMerge, plan.late, plan.rejectLate);
      if !o.PowerLoss? {
        InstalledIsMerged(before, plan, installed, o, Now(vol));
      }
    } else {
      vol.pre, vol.post := vol.data, vol.data;
      o := Done(());
    }
  }

  lemma InstalledIsMerged(before: Disk, plan: Plan, installed: map<Name, Content>, o: Outcome<()>, after: Disk)
    requires before.merge.pending.Some? && plan.mergeState(before.data).Some? && HasNoDirs(after) && !o.PowerLoss?
    requires forall n :: n in plan.mergeState(before.data).value <==> Covers(NodeMerge, n)
    requires installed == before.data + plan.mergeState(before.data).value
    requires o.Refused? <==> plan.rejectLate
    requires o.Done? ==> IsOverwritten(NodeMerge, installed, plan.late, after.data)
    requires o.Refused? ==> forall n :: FileReturned(NodeMerge, before.data, plan.late, after.data, n)
    requires before.merge.pending.value.manifest.Some? && forall n :: n in MERGE_NAMES ==> n in before.data
    ensures before.restore == NO_DIRS && plan.mergeFault.NoFault? ==> MergesNow(before, plan, o, after)
  {
    if o.Done? {
      forall n ensures FileMerged(before.data, plan.mergeState(before.data).value, plan.late, after.data, n) {
        assert FileOverwritten(NodeMerge, installed, plan.late, after.data, n);
      }
    }
  }

  /** One startup in the order of main.go, and the lifetime after it. */
  method Boot(vol: Volume, plan: Plan) returns (o: Outcome<()>, ghost past: Past)
    requires Consistent(vol) && ValidPlan(plan)
    modifies vol
    ensures o.PowerLoss? ==> vol.power == 0
    ensures Consistent(vol)
    ensures o.Done? ==> AtRest(vol)
    ensures Stranded(old(vol.merge)) ==> vol.merge == old(vol.merge)
    ensures past.before == old(Now(vol)) && past.after == Now(vol) && past.outcome == o && Lawful(past, plan)
    ensures o.Done? ==> past.recovered.data in {old(vol.pre), old(vol.post)}
  {
    ghost var before := Now(vol);
    vol.power := plan.power;
    o := RecoverBoth(vol);
    ghost var recovered := Now(vol);
    if !o.Done? {
      past := Past(before, recovered, recovered, recovered, o);
      return;
    }
    o, past := BootRecovered(vol, plan, before);
  }

  method BootRecovered(vol: Volume, plan: Plan, ghost before: Disk) returns (o: Outcome<()>, ghost past: Past)
    requires AtRest(vol) && ValidPlan(plan) && (IsAtRest(before) ==> Now(vol) == before)
    modifies vol
    ensures o.PowerLoss? ==> vol.power == 0
    ensures Consistent(vol)
    ensures o.Done? ==> AtRest(vol)
    ensures Stranded(old(vol.merge)) ==> vol.merge == old(vol.merge)
    ensures past.before == before && past.recovered == old(Now(vol)) && past.after == Now(vol) && past.outcome == o && Lawful(past, plan)
  {
    ghost var recovered := Now(vol);
    o := StartUp(vol, plan);
    ghost var up := Now(vol);
    if !o.Done? {
      past := Past(before, recovered, up, up, o);
      return;
    }
    o := Live(vol, plan.actions);
    vol.pre, vol.post := vol.data, vol.data;
    past := Past(before, recovered, up, Now(vol), o);
  }

  /** Startups that follow one another. */
  ghost predicate IsHistory(history: seq<Past>, plans: seq<Plan>, first: Disk, last: Disk) {
    && |history| == |plans|
    && (forall i :: 0 <= i < |history| ==> Lawful(history[i], plans[i]))
    && (forall i :: 0 < i < |history| ==> history[i].before == history[i - 1].after)
    && if history == [] then last == first else history[0].before == first && history[|history| - 1].after == last
  }

  lemma HistoryOneMore(history: seq<Past>, plans: seq<Plan>, i: nat, first: Disk, middle: Disk, past: Past)
    requires i < |plans| && IsHistory(history, plans[..i], first, middle) && past.before == middle && Lawful(past, plans[i])
    ensures IsHistory(history + [past], plans[..i + 1], first, past.after)
  {
  }

  /** Every run: after any number of startups, cut off anywhere, at most one package has directories
      and the data directory is bound to the files before its transaction or to those it installed, and
      every startup that was not cut off did what it should. A pending merge without its instruction
      stays for ever. */
  method Run(vol: Volume, plans: seq<Plan>) returns (ghost history: seq<Past>)
    requires Consistent(vol)
    requires forall i :: 0 <= i < |plans| ==> ValidPlan(plans[i])
    modifies vol
    ensures Consistent(vol)
    ensures Stranded(old(vol.merge)) ==> vol.merge == old(vol.merge)
    ensures IsHistory(history, plans, old(Now(vol)), Now(vol))
  {
    history := [];
    for i := 0 to |plans|
      invariant Consistent(vol) && (Stranded(old(vol.merge)) ==> vol.merge == old(vol.merge))
      invariant IsHistory(history, plans[..i], old(Now(vol)), Now(vol))
    {
      ghost var middle := Now(vol);
      var _, past := Boot(vol, plans[i]);
      HistoryOneMore(history, plans, i, old(Now(vol)), middle, past);
      history := history + [past];
    }
    assert plans[..|plans|] == plans;
  }

  /** A run from an empty disk, which every reachable disk stems from. */
  method RunFromNothing(files: map<Name, Content>, plans: seq<Plan>) returns (vol: Volume, ghost history: seq<Past>)
    requires forall i :: 0 <= i < |plans| ==> ValidPlan(plans[i])
    ensures fresh(vol) && Consistent(vol) && IsHistory(history, plans, Disk(files, NO_DIRS, NO_DIRS), Now(vol))
  {
    vol := new Volume(files);
    history := Run(vol, plans);
  }

  lemma RefusedFileStays(before: map<Name, Content>, after: map<Name, Content>, sanitize: (Name, Content) -> Option<Content>)
    requires CutOff(before, after, sanitize) && !Clean(before, sanitize)
    ensures !Clean(after, sanitize)
  {
    var n :| n in before && sanitize(n, before[n]).None?;
    assert Whole(before, after, sanitize, n);
  }

  /** A staged restore with one file that is refused is never applied: every later startup refuses it
      or is cut off, until it is staged again. */
  method RefusedStays(vol: Volume, sanitize: (Name, Content) -> Option<Content>, fault: Fault, powers: seq<nat>) returns (outcomes: seq<Outcome<bool>>)
    requires CanApply(vol.restore) && Idle(Restore, vol.ViewOf(Restore)) && !Clean(vol.restore.pending.value.files, sanitize)
    modifies vol
    ensures CanApply(vol.restore) && !Clean(vol.restore.pending.value.files, sanitize) && vol.data == old(vol.data)
    ensures |outcomes| == |powers| && forall i :: 0 <= i < |powers| ==> !outcomes[i].Done?
  {
    outcomes := [];
    for i := 0 to |powers|
      invariant CanApply(vol.restore) && Idle(Restore, vol.ViewOf(Restore)) && vol.data == old(vol.data)
      invariant !Clean(vol.restore.pending.value.files, sanitize)
      invariant |outcomes| == i && forall k :: 0 <= k < i ==> !outcomes[k].Done?
    {
      vol.power := powers[i];
      ghost var files := vol.restore.pending.value.files;
      var o := ApplyRestore(vol, sanitize, fault);
      RefusedFileStays(files, vol.restore.pending.value.files, sanitize);
      outcomes := outcomes + [o];
    }
  }

  /** The failing input: every staged file is acceptable, and the power fails when the first one has
      been truncated and not yet written. From then on the restore is refused. */
  method ValidationTearsFile(vol: Volume, sanitize: (Name, Content) -> Option<Content>, fault: Fault, powers: seq<nat>) returns (outcomes: seq<Outcome<bool>>)
    requires CanApply(vol.restore) && Idle(Restore, vol.ViewOf(Restore)) && vol.power == 1
    requires vol.restore.pending.value.files != map[] && Clean(vol.restore.pending.value.files, sanitize) && Sane(sanitize)
    modifies vol
    ensures CanApply(vol.restore) && vol.data == old(vol.data)
    ensures |outcomes| == |powers| && forall i :: 0 <= i < |powers| ==> !outcomes[i].Done?
  {
    var _ := ApplyRestore(vol, sanitize, fault);
    assert !Clean(vol.restore.pending.value.files, sanitize);
    outcomes := RefusedStays(vol, sanitize, fault, powers);
  }

  /** How a pending merge loses its instruction: another one is staged over it, and the power fails
      when the state file is gone and the new directory is not there yet. From then on both kinds of
      staging are refused, after any run. */
  method MergeIsStranded(vol: Volume, plans: seq<Plan>, files: map<Name, Content>) returns (restore: Outcome<()>, merge: Outcome<()>)
    requires AtRest(vol) && vol.power == 1 && vol.pre == vol.post == vol.data
    requires vol.merge.pending.Some? && vol.merge.pending.value.manifest.Some?
    requires forall i :: 0 <= i < |plans| ==> ValidPlan(plans[i])
    requires forall n :: n in files ==> Covers(Restore, n)
    modifies vol
    ensures Stranded(vol.merge) && restore.Refused? && merge.Refused?
  {
    var _ := StageMergeInstruction(vol, false, true);
    var _ := Run(vol, plans);
    assert AtRest(vol);
    restore := StageRestoreGuarded(vol, files);
    merge := StageMergeInstruction(vol, false);
  }
}
