/** Confirming, rolling back and recovering an applied transaction. */
module Recovery {
  import opened Wrappers
  import opened Volumes
  import opened TransactionSpec
  import opened Transactions

  /** The marker file is created empty and then written; in between it is torn. */
  method WriteMarker(vol: Volume, k: Package) returns (o: Outcome<()>)
    requires vol.DirsOf(k).rollback.Some?
    modifies vol`data, vol`restore, vol`merge, vol`power, vol`committed
    ensures o.PowerLoss? ==> vol.power == 0
    ensures vol.data == old(vol.data) && vol.OtherDirs(k) == old(vol.OtherDirs(k))
    ensures var rollback := old(vol.DirsOf(k)).rollback.value;
            && (vol.committed <==> old(vol.committed) || (o.Done? && rollback.marker.Missing?))
            && (o.Refused? <==> rollback.marker.Torn?)
            && (o.Refused? ==> vol.DirsOf(k) == old(vol.DirsOf(k)))
            && (o.Done? ==> vol.DirsOf(k) == old(vol.DirsOf(k)).(rollback := Some(rollback.(marker := Confirmed))))
            && (o.PowerLoss? ==> vol.DirsOf(k) in {old(vol.DirsOf(k)), old(vol.DirsOf(k)).(rollback := Some(rollback.(marker := Torn)))})
  {
    var rollback := vol.DirsOf(k).rollback.value;
    if rollback.marker.Torn? {
      return Refused(BadMarker);
    }
    if rollback.marker.Confirmed? {
      return Done(());
    }
    var _ :- vol.Step(k, View(vol.data, vol.DirsOf(k).(rollback := Some(rollback.(marker := Torn)))));
    var _ :- vol.Step(k, View(vol.data, vol.DirsOf(k).(rollback := Some(rollback.(marker := Confirmed)))));
    vol.committed := true;
    o := Done(());
  }

  /** Removes what is left of a committed transaction, the applied directory first. */
  method Cleanup(vol: Volume, k: Package) returns (o: Outcome<()>)
    modifies vol`data, vol`restore, vol`merge, vol`power
    ensures o.PowerLoss? ==> vol.power == 0
    ensures vol.data == old(vol.data) && vol.OtherDirs(k) == old(vol.OtherDirs(k)) && !o.Refused?
    ensures vol.DirsOf(k).pending == old(vol.DirsOf(k).pending)
    ensures o.Done? ==> vol.DirsOf(k) == old(vol.DirsOf(k)).(applied := None, rollback := None)
    ensures o.PowerLoss? ==>
              var before, after := old(vol.DirsOf(k)), vol.DirsOf(k);
              || (after.rollback == before.rollback && before.applied.Some?)
              || (after.applied.None? && before.rollback.Some? && after.rollback.Some?
                  && after.rollback.value.marker in {Missing, before.rollback.value.marker})
  {
    if vol.DirsOf(k).applied.Some? {
      var _ :- vol.RemoveState(k, Applied);
    }
    if vol.DirsOf(k).rollback.Some? {
      var _ :- vol.RemoveRollback(k);
    }
    o := Done(());
  }

  /** ConfirmAppliedRestore. */
  method ConfirmRestore(vol: Volume) returns (o: Outcome<()>)
    modifies vol`data, vol`restore, vol`merge, vol`power, vol`committed
    ensures o.PowerLoss? ==> vol.power == 0
    ensures vol.data == old(vol.data) && vol.merge == old(vol.merge)
    ensures !o.PowerLoss? ==>
              (o.Refused? <==>
               var before := old(vol.restore);
               before.rollback.Some? && (before.rollback.value.marker.Torn? || (before.rollback.value.marker.Missing? && before.applied.None?)))
    ensures o.Done? ==> vol.restore == old(vol.restore).(applied := None, rollback := None)
    ensures Complete(Restore, old(vol.ViewOf(Restore)), vol.pre, vol.post) && !old(vol.committed) ==>
              (o.Done? ==> vol.committed) && (o.PowerLoss? ==> Fated(Restore, vol.ViewOf(Restore), vol.pre, vol.post, vol.committed))
    ensures Complete(Restore, old(vol.ViewOf(Restore)), vol.pre, vol.post) && o.PowerLoss? ==>
              PreBound(Restore, vol.ViewOf(Restore), vol.pre, vol.post) || PostBound(Restore, vol.ViewOf(Restore), vol.post)
  {
    if vol.restore.rollback.Some? {
      if vol.restore.rollback.value.marker.Torn? {
        return Refused(BadMarker);
      }
      if vol.restore.rollback.value.marker.Missing? {
        if vol.restore.applied.None? {
          return Refused(Incomplete);
        }
        var _ :- WriteMarker(vol, Restore);
      }
    }
    o := Cleanup(vol, Restore);
  }

  /** ConfirmApplied, the stricter confirmation of a node merge. */
  method ConfirmMerge(vol: Volume) returns (o: Outcome<()>)
    modifies vol`data, vol`restore, vol`merge, vol`power, vol`committed
    ensures o.PowerLoss? ==> vol.power == 0
    ensures vol.data == old(vol.data) && vol.restore == old(vol.restore)
    ensures !o.PowerLoss? ==>
              (o.Refused? <==>
               var before := old(vol.merge);
               && (before.applied.Some? || before.rollback.Some?)
               && (before.applied.None? || before.rollback.None? || before.rollback.value.marker.Torn?))
    ensures o.Done? ==> vol.merge == old(vol.merge).(applied := None, rollback := None)
    ensures Complete(NodeMerge, old(vol.ViewOf(NodeMerge)), vol.pre, vol.post) && !old(vol.committed) ==>
              (o.Done? ==> vol.committed) && (o.PowerLoss? ==> Fated(NodeMerge, vol.ViewOf(NodeMerge), vol.pre, vol.post, vol.committed))
    ensures Complete(NodeMerge, old(vol.ViewOf(NodeMerge)), vol.pre, vol.post) && o.PowerLoss? ==>
              PreBound(NodeMerge, vol.ViewOf(NodeMerge), vol.pre, vol.post) || PostBound(NodeMerge, vol.ViewOf(NodeMerge), vol.post)
  {
    var d := vol.merge;
    if d.pending.Some? && d.applied.None? && d.rollback.None? {
      return Done(());
    }
    if d.applied.None? || d.rollback.None? {
      if d.pending.None? && d.applied.None? && d.rollback.None? {
        return Done(());
      }
      return Refused(Incomplete);
    }
    var _ :- WriteMarker(vol, NodeMerge);
    o := Cleanup(vol, NodeMerge);
  }

  /** What is to be rolled back is whole, unconfirmed and not blocked; or there is nothing. */
  ghost predicate CanRollBack(k: Package, v: View) {
    || (v.dirs.applied.None? && v.dirs.rollback.None?)
    || (v.dirs.applied.Some? && v.dirs.rollback.Some? && v.dirs.rollback.value.marker.Missing? && CanRecover(k, v))
  }

  /** RollbackAppliedRestore and RollbackApplied. */
  method RollbackApplied(vol: Volume, k: Package) returns (o: Outcome<()>)
    modifies vol`data, vol`restore, vol`merge, vol`power
    ensures o.PowerLoss? ==> vol.power == 0
    ensures vol.OtherDirs(k) == old(vol.OtherDirs(k))
    ensures Complete(k, old(vol.ViewOf(k)), vol.pre, vol.post) ==>
              && !o.Refused?
              && (o.Done? ==> Idle(k, vol.ViewOf(k)) && vol.data == vol.pre)
              && (o.PowerLoss? ==> PreBound(k, vol.ViewOf(k), vol.pre, vol.post))
    ensures !o.PowerLoss? ==> (o.Done? <==> CanRollBack(k, old(vol.ViewOf(k))))
    ensures var before := old(vol.DirsOf(k));
            if before.applied.None? && before.rollback.None? then o.Done? && vol.ViewOf(k) == old(vol.ViewOf(k))
            else if before.applied.None? || before.rollback.None? then o == Refused(Incomplete) && vol.ViewOf(k) == old(vol.ViewOf(k))
            else if before.rollback.value.marker.Torn? then o == Refused(BadMarker) && vol.ViewOf(k) == old(vol.ViewOf(k))
            else if before.rollback.value.marker.Confirmed? then o == Refused(AlreadyConfirmed) && vol.ViewOf(k) == old(vol.ViewOf(k))
            else o.Done? ==> vol.ViewOf(k) == Recovered(k, old(vol.ViewOf(k)))
  {
    var d := vol.DirsOf(k);
    if d.applied.None? && d.rollback.None? {
      return Done(());
    }
    if d.applied.None? || d.rollback.None? {
      return Refused(Incomplete);
    }
    if d.rollback.value.marker.Torn? {
      return Refused(BadMarker);
    }
    if d.rollback.value.marker.Confirmed? {
      return Refused(AlreadyConfirmed);
    }
    ghost var v := vol.ViewOf(k);
    if Open(k, v, Applied, vol.pre, vol.post) {
      forall n ensures !Blocked(k, v.dirs.applied.value, v.data, v.dirs.rollback.value.files, n) {
        OpenIsNotBlocked(k, Applied, v, vol.pre, vol.post, n);
      }
      UndoRestores(k, Applied, v, vol.pre, vol.post);
    }
    o := Undo(vol, k, Applied, false);
  }

  /** Startup recovery. On every disk it either refuses or ends in the state `Recovered` names; a
      power loss inside it leaves a state with the same fate. */
  method Recover(vol: Volume, k: Package) returns (o: Outcome<bool>)
    modifies vol`data, vol`restore, vol`merge, vol`power
    ensures o.PowerLoss? ==> vol.power == 0
    ensures vol.OtherDirs(k) == old(vol.OtherDirs(k))
    ensures !o.PowerLoss? ==> (o.Done? <==> CanRecover(k, old(vol.ViewOf(k))))
    ensures o.Done? ==> vol.ViewOf(k) == Recovered(k, old(vol.ViewOf(k)))
    ensures o.Done? ==> (o.value <==> old(vol.DirsOf(k).applied.Some? || vol.DirsOf(k).rollback.Some?))
    ensures old(vol.DirsOf(k).applied.None? && vol.DirsOf(k).rollback.None?) ==> o.Done? && vol.ViewOf(k) == old(vol.ViewOf(k))
    ensures PreBound(k, old(vol.ViewOf(k)), vol.pre, vol.post) && o.PowerLoss? ==> PreBound(k, vol.ViewOf(k), vol.pre, vol.post)
    ensures PostBound(k, old(vol.ViewOf(k)), vol.post) && o.PowerLoss? ==> PostBound(k, vol.ViewOf(k), vol.post)
    ensures PostBound(k, old(vol.ViewOf(k)), vol.post) && o.Refused? ==> vol.ViewOf(k) == old(vol.ViewOf(k))
    ensures PostBound(k, old(vol.ViewOf(k)), vol.post) && o.PowerLoss? ==> !TornMarker(vol.DirsOf(k))
    ensures old(TornMarker(vol.DirsOf(k))) ==> o.Refused?
  {
    ghost var v := vol.ViewOf(k);
    var d := vol.DirsOf(k);
    if d.applied.None? && d.rollback.None? {
      assert d == d.(applied := None, rollback := None);
      return Done(false);
    }
    if d.rollback.Some? {
      if d.rollback.value.marker.Torn? {
        return Refused(BadMarker);
      }
      if d.rollback.value.marker.Confirmed? {
        var _ :- Cleanup(vol, k);
        return Done(true);
      }
    }
    if d.applied.Some? && d.rollback.Some? {
      var _ :- Undo(vol, k, Applied, false);
      return Done(true);
    }
    if d.applied.Some? {
      var _ :- Cleanup(vol, k);
      return Done(true);
    }
    if d.pending.None? {
      return Refused(Incomplete);
    }
    var _ :- Undo(vol, k, Pending, true);
    o := Done(true);
  }
}
