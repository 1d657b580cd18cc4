/**
  Apply, confirm, roll back and recover, for backup restores and node merges.

  Both packages follow the same protocol; where their code differs the methods
  branch on the package or come in two versions.
*/
module Transactions {
  import opened Wrappers
  import opened Volumes
  import opened TransactionSpec

  // ----- rollback of a transaction -----

  predicate Readable(k: Package, sd: StateDir) {
    k.Restore? ==> sd.manifest.Some?
  }

  ghost predicate Undoable(k: Package, at: Place, v: View)
    requires StateAt(v.dirs, at).Some? && v.dirs.rollback.Some?
  {
    var sd, rb := StateAt(v.dirs, at).value, v.dirs.rollback.value.files;
    Readable(k, sd) && forall n {:trigger Blocked(k, sd, v.data, rb, n)} :: !Blocked(k, sd, v.data, rb, n)
  }

  lemma UndoneNothing(k: Package, at: Place, v: View)
    requires StateAt(v.dirs, at).Some? && v.dirs.rollback.Some?
    ensures Undone(k, at, v, {}) == v
  {
    var w := Undone(k, at, v, {});
    assert w.data == v.data;
    assert w.dirs.rollback.value.files == v.dirs.rollback.value.files;
    assert StateAt(w.dirs, at).value.files == StateAt(v.dirs, at).value.files;
  }

  lemma UndoneSame(at: Place, a: View, b: View)
    requires StateAt(a.dirs, at).Some? && StateAt(b.dirs, at).Some? && a.dirs.rollback.Some? && b.dirs.rollback.Some?
    requires a.data == b.data
    requires StateAt(a.dirs, at).value.files == StateAt(b.dirs, at).value.files
    requires StateAt(a.dirs, at).value.manifest == StateAt(b.dirs, at).value.manifest
    requires a.dirs.rollback.value.files == b.dirs.rollback.value.files
    requires a.dirs.rollback.value.marker == b.dirs.rollback.value.marker
    requires if at.Pending? then a.dirs.applied == b.dirs.applied else a.dirs.pending == b.dirs.pending
    ensures a == b
  {
  }

  /** Undoing one more name is undoing it in the state the others left. */
  lemma UndoneOneMore(k: Package, at: Place, v: View, done: set<Name>, n: Name)
    requires StateAt(v.dirs, at).Some? && v.dirs.rollback.Some?
    requires n !in done
    ensures var sd, rb := StateAt(v.dirs, at).value, v.dirs.rollback.value.files;
            var cur := Undone(k, at, v, done);
            Blocked(k, StateAt(cur.dirs, at).value, cur.data, cur.dirs.rollback.value.files, n) <==> Blocked(k, sd, v.data, rb, n)
    ensures Undone(k, at, Undone(k, at, v, done), {n}) == Undone(k, at, v, done + {n})
  {
    var sd, rb := StateAt(v.dirs, at).value, v.dirs.rollback.value.files;
    var cur := Undone(k, at, v, done);
    var sd', rb' := StateAt(cur.dirs, at).value, cur.dirs.rollback.value.files;
    assert Includes(k, sd', n) <==> Includes(k, sd, n);
    assert Returned(k, sd', cur.data, rb', n) <==> Returned(k, sd, v.data, rb, n);
    forall m
      ensures Same(UndoneData(k, sd', cur.data, rb', {n}), UndoneData(k, sd, v.data, rb, done + {n}), m)
      ensures Same(UndoneStaged(k, sd', cur.data, rb', {n}), UndoneStaged(k, sd, v.data, rb, done + {n}), m)
      ensures Same(rb' - {n}, rb - (done + {n}), m)
    {
    }
    SameEverywhere(UndoneData(k, sd', cur.data, rb', {n}), UndoneData(k, sd, v.data, rb, done + {n}));
    SameEverywhere(UndoneStaged(k, sd', cur.data, rb', {n}), UndoneStaged(k, sd, v.data, rb, done + {n}));
    SameEverywhere(rb' - {n}, rb - (done + {n}));
  }

  /** What the four branches of the rollback loop do to one file. */
  lemma UndoneFile(k: Package, at: Place, v: View, n: Name)
    requires StateAt(v.dirs, at).Some? && v.dirs.rollback.Some?
    requires Covers(k, n)
    requires !Blocked(k, StateAt(v.dirs, at).value, v.data, v.dirs.rollback.value.files, n)
    ensures
      var sd, rb := StateAt(v.dirs, at).value, v.dirs.rollback.value.files;
      Undone(k, at, v, {n}) ==
      if Returned(k, sd, v.data, rb, n) then
        var w := MoveFile(v, Data, at, n);
        if n in rb then MoveFile(w, Rollback, Data, n) else w
      else if n in rb then MoveFile(v, Rollback, Data, n)
      else v
  {
    var sd, rb := StateAt(v.dirs, at).value, v.dirs.rollback.value.files;
    var a := Undone(k, at, v, {n});
    var b := if Returned(k, sd, v.data, rb, n) then
               var w := MoveFile(v, Data, at, n);
               if n in rb then MoveFile(w, Rollback, Data, n) else w
             else if n in rb then MoveFile(v, Rollback, Data, n)
             else v;
    forall m
      ensures Same(a.data, b.data, m)
      ensures Same(StateAt(a.dirs, at).value.files, StateAt(b.dirs, at).value.files, m)
      ensures Same(a.dirs.rollback.value.files, b.dirs.rollback.value.files, m)
    {
    }
    SameEverywhere(a.data, b.data);
    SameEverywhere(StateAt(a.dirs, at).value.files, StateAt(b.dirs, at).value.files);
    SameEverywhere(a.dirs.rollback.value.files, b.dirs.rollback.value.files);
    UndoneSame(at, a, b);
  }

  /** The body of the rollback loop. */
  method UndoFile(vol: Volume, k: Package, at: Place, n: Name) returns (o: Outcome<()>)
    requires at.Pending? || at.Applied?
    requires StateAt(vol.DirsOf(k), at).Some? && vol.DirsOf(k).rollback.Some?
    requires Readable(k, StateAt(vol.DirsOf(k), at).value) && Covers(k, n)
    modifies vol`data, vol`restore, vol`merge, vol`power
    ensures o.PowerLoss? ==> vol.power == 0
    ensures at.Pending? ==> vol.DirsOf(k).applied == old(vol.DirsOf(k).applied)
    ensures vol.OtherDirs(k) == old(vol.OtherDirs(k))
    ensures var v := old(vol.ViewOf(k));
            !o.PowerLoss? ==>
              (o.Refused? <==> Blocked(k, StateAt(v.dirs, at).value, v.data, v.dirs.rollback.value.files, n))
    ensures o.Done? ==> vol.ViewOf(k) == Undone(k, at, old(vol.ViewOf(k)), {n})
    ensures Open(k, old(vol.ViewOf(k)), at, vol.pre, vol.post) ==> Open(k, vol.ViewOf(k), at, vol.pre, vol.post)
  {
    ghost var v := vol.ViewOf(k);
    ghost var open := Open(k, v, at, vol.pre, vol.post);
    var state := StateAt(vol.DirsOf(k), at).value;
    var included := k.NodeMerge? || n in state.manifest.value;
    var destinationExists := n in vol.data;
    var stagedExists := n in state.files;
    var originalExists := n in vol.DirsOf(k).rollback.value.files;
    if originalExists {
      if included && !stagedExists && destinationExists {
        if open {
          ReturnKeepsMixed(k, at, v, vol.pre, vol.post, n);
        }
        var returned := vol.Rename(k, Data, at, n);
        if returned.PowerLoss? {
          return PowerLoss;
        }
        destinationExists := false;
      }
      if destinationExists {
        return Refused(Conflict);
      }
      UndoneFile(k, at, v, n);
      if open {
        PutBackKeepsMixed(k, at, vol.ViewOf(k), vol.pre, vol.post, n);
      }
      o := vol.Rename(k, Rollback, Data, n);
    } else {
      UndoneFile(k, at, v, n);
      if k.Restore? && included && !stagedExists && destinationExists {
        if open {
          ReturnKeepsMixed(k, at, v, vol.pre, vol.post, n);
        }
        o := vol.Rename(k, Data, at, n);
      } else {
        o := Done(());
      }
    }
  }

  /** The rollback loop. */
  method UndoFiles(vol: Volume, k: Package, at: Place, names: seq<Name>) returns (o: Outcome<()>)
    requires at.Pending? || at.Applied?
    requires (forall i, j :: 0 <= i < j < |names| ==> names[i] != names[j]) && (forall n :: n in names <==> Covers(k, n))
    requires StateAt(vol.DirsOf(k), at).Some? && vol.DirsOf(k).rollback.Some?
    requires Readable(k, StateAt(vol.DirsOf(k), at).value)
    modifies vol`data, vol`restore, vol`merge, vol`power
    ensures o.PowerLoss? ==> vol.power == 0
    ensures vol.OtherDirs(k) == old(vol.OtherDirs(k))
    ensures !o.PowerLoss? ==> (o.Done? <==> Undoable(k, at, old(vol.ViewOf(k))))
    ensures o.Done? ==> vol.ViewOf(k) == Undone(k, at, old(vol.ViewOf(k)), AllNames(k))
    ensures Open(k, old(vol.ViewOf(k)), at, vol.pre, vol.post) ==> Open(k, vol.ViewOf(k), at, vol.pre, vol.post)
    ensures at.Pending? ==> vol.DirsOf(k).applied == old(vol.DirsOf(k).applied)
  {
    ghost var v := vol.ViewOf(k);
    UndoneNothing(k, at, v);
    ghost var done := {};
    for i := 0 to |names|
      invariant done == SetOf(names[..i])
      invariant Halfway(k, at, v, vol.ViewOf(k), done)
      invariant vol.OtherDirs(k) == old(vol.OtherDirs(k))
      invariant Open(k, v, at, vol.pre, vol.post) ==> Open(k, vol.ViewOf(k), at, vol.pre, vol.post)
    {
      NextName(names, i);
      var _ :- UndoNext(vol, k, at, names[i], v, done);
      done := done + {names[i]};
    }
    assert names[..|names|] == names;
    assert done == AllNames(k) by {
      assert forall n :: n in names <==> n in AllNames(k);
    }
    o := Done(());
  }

  ghost function SetOf(names: seq<Name>): set<Name> {
    set n | n in names
  }

  lemma NextName(names: seq<Name>, i: nat)
    requires i < |names| && forall j, k :: 0 <= j < k < |names| ==> names[j] != names[k]
    ensures names[i] !in names[..i] && SetOf(names[..i + 1]) == SetOf(names[..i]) + {names[i]}
    ensures names[i] in names
  {
    assert names[..i + 1] == names[..i] + [names[i]];
  }

  /** The names in `done` are rolled back, and none of them was in the way of another file. */
  ghost predicate Halfway(k: Package, at: Place, v: View, now: View, done: set<Name>)
    requires StateAt(v.dirs, at).Some? && v.dirs.rollback.Some?
  {
    && now == Undone(k, at, v, done)
    && forall n :: n in done ==> !Blocked(k, StateAt(v.dirs, at).value, v.data, v.dirs.rollback.value.files, n)
  }

  method UndoNext(vol: Volume, k: Package, at: Place, n: Name, ghost v: View, ghost done: set<Name>) returns (o: Outcome<()>)
    requires (at.Pending? || at.Applied?) && StateAt(v.dirs, at).Some? && v.dirs.rollback.Some?
    requires Halfway(k, at, v, vol.ViewOf(k), done) && n !in done && Covers(k, n)
    requires Readable(k, StateAt(v.dirs, at).value)
    modifies vol`data, vol`restore, vol`merge, vol`power
    ensures o.PowerLoss? ==> vol.power == 0
    ensures vol.OtherDirs(k) == old(vol.OtherDirs(k))
    ensures at.Pending? ==> vol.DirsOf(k).applied == old(vol.DirsOf(k).applied)
    ensures o.Done? ==> Halfway(k, at, v, vol.ViewOf(k), done + {n})
    ensures o.Refused? ==> Blocked(k, StateAt(v.dirs, at).value, v.data, v.dirs.rollback.value.files, n)
    ensures Open(k, old(vol.ViewOf(k)), at, vol.pre, vol.post) ==> Open(k, vol.ViewOf(k), at, vol.pre, vol.post)
  {
    UndoneOneMore(k, at, v, done, n);
    o := UndoFile(vol, k, at, n);
  }

  method Undo(vol: Volume, k: Package, at: Place, keep: bool) returns (o: Outcome<()>)
    requires at.Pending? || at.Applied?
    requires StateAt(vol.DirsOf(k), at).Some? && vol.DirsOf(k).rollback.Some?
    modifies vol`data, vol`restore, vol`merge, vol`power
    ensures o.PowerLoss? ==> vol.power == 0
    ensures vol.OtherDirs(k) == old(vol.OtherDirs(k))
    ensures at.Pending? ==> vol.DirsOf(k).applied == old(vol.DirsOf(k).applied)
    ensures !o.PowerLoss? ==> (o.Done? <==> Undoable(k, at, old(vol.ViewOf(k))))
    ensures o.Done? ==>
              var undone := Undone(k, at, old(vol.ViewOf(k)), AllNames(k));
              var dirs := undone.dirs.(rollback := None);
              vol.ViewOf(k) == View(undone.data, if keep then dirs else WithState(dirs, at, None))
    ensures o.PowerLoss? && (keep <==> at.Pending?) && Open(k, old(vol.ViewOf(k)), at, vol.pre, vol.post) ==>
              PreBound(k, vol.ViewOf(k), vol.pre, vol.post)
  {
    ghost var v := vol.ViewOf(k);
    ghost var open := Open(k, v, at, vol.pre, vol.post);
    if k.Restore? && StateAt(vol.DirsOf(k), at).value.manifest.None? {
      return Refused(Unreadable);
    }
    var _ :- UndoFiles(vol, k, at, Names(k));
    if open {
      UndoRestores(k, at, v, vol.pre, vol.post);
    }
    var removedRollback := vol.RemoveRollback(k);
    if removedRollback.PowerLoss? {
      if open {
        assert vol.DirsOf(k).rollback.value.files == map[];
        StillOpen(k, at, View(vol.data, vol.DirsOf(k)), Undone(k, at, v, AllNames(k)), vol.pre, vol.post);
      }
      return PowerLoss;
    }
    if !keep {
      var removedState := vol.RemoveState(k, at);
      if removedState.PowerLoss? {
        return PowerLoss;
      }
    }
    o := Done(());
  }

  lemma StillOpen(k: Package, at: Place, a: View, b: View, pre: map<Name, Content>, post: map<Name, Content>)
    requires Open(k, b, at, pre, post)
    requires a.data == b.data && a.dirs.rollback.Some? && a.dirs.rollback.value.marker == Missing
    requires a.dirs.rollback.value.files == b.dirs.rollback.value.files
    requires a.dirs.pending == b.dirs.pending && a.dirs.applied == b.dirs.applied
    ensures Open(k, a, at, pre, post)
  {
    assert a == b;
  }
}
