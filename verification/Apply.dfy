/** Applying a staged restore or a staged node merge. */
module Apply {
  import opened Wrappers
  import opened Volumes
  import opened TransactionSpec
  import opened Transactions

  /** The one operation of an apply that fails for a reason other than a power loss, if any. */
  datatype Fault = NoFault | AtMove(n: Name) | AtInstall(n: Name) | AtChmod(n: Name) | AtFinalize

  /** The state files once `files` are installed and every other covered file is gone. */
  function Target(k: Package, data: map<Name, Content>, files: map<Name, Content>): (r: map<Name, Content>)
    ensures forall n :: n in r <==> if Covers(k, n) then n in files else n in data
    ensures forall n :: n in r ==> if Covers(k, n) then r[n] == files[n] else r[n] == data[n]
  {
    (map n | n in data && !Covers(k, n) :: data[n]) + (map n | n in files && Covers(k, n) :: files[n])
  }

  /** With an empty rollback directory everything is still where it was. */
  lemma OpensUntouched(k: Package, v: View)
    requires v.dirs.pending.Some? && v.dirs.applied.None?
    requires v.dirs.rollback == Some(RollbackDir(map[], Missing))
    requires Staged(k, v.dirs.pending.value) && v.dirs.pending.value.manifest.Some?
    requires k.NodeMerge? ==> forall n :: Covers(k, n) ==> n in v.data && n in v.dirs.pending.value.files
    ensures Open(k, v, Pending, v.data, Target(k, v.data, v.dirs.pending.value.files))
    ensures forall n :: Covers(k, n) ==>
                          Untouched(v.dirs.pending.value, v, map[], v.data, Target(k, v.data, v.dirs.pending.value.files), n)
  {
    var post := Target(k, v.data, v.dirs.pending.value.files);
    var sd := v.dirs.pending.value;
    forall n | Covers(k, n)
      ensures Untouched(sd, v, map[], v.data, post, n)
    {
    }
    forall n ensures Includes(k, sd, n) <==> Covers(k, n) && n in post {
    }
  }

  /** The restore loop's own account of what it did, which its rollback walks backwards. */
  ghost predicate Accounted(v: View, post: map<Name, Content>, movedOld: seq<Name>, installed: seq<Name>)
    requires v.dirs.pending.Some? && v.dirs.rollback.Some?
  {
    && (forall i, j :: 0 <= i < j < |movedOld| ==> movedOld[i] != movedOld[j])
    && (forall i, j :: 0 <= i < j < |installed| ==> installed[i] != installed[j])
    && (forall n :: n in movedOld <==> n in v.dirs.rollback.value.files)
    && (forall n :: n in installed <==> Covers(Restore, n) && n in post && n !in v.dirs.pending.value.files)
  }

  /** The disk after the first one or two renames of a turn. */
  function Progress(v: View, n: Name, moved: bool, placed: bool): View
    requires v.dirs.pending.Some? && v.dirs.rollback.Some?
    requires moved ==> n in v.data
    requires placed ==> n in v.dirs.pending.value.files
  {
    var w := if moved then MoveFile(v, Data, Rollback, n) else v;
    if placed then MoveFile(w, Pending, Data, n) else w
  }

  lemma ProgressFrame(v: View, n: Name, moved: bool, placed: bool, m: Name)
    requires v.dirs.pending.Some? && v.dirs.rollback.Some?
    requires moved ==> n in v.data
    requires placed ==> n in v.dirs.pending.value.files
    requires m != n
    ensures var w := Progress(v, n, moved, placed);
            && w.dirs.pending.Some? && w.dirs.rollback.Some? && w.dirs.pending.value.manifest == v.dirs.pending.value.manifest
            && Same(w.data, v.data, m)
            && Same(w.dirs.rollback.value.files, v.dirs.rollback.value.files, m)
            && Same(w.dirs.pending.value.files, v.dirs.pending.value.files, m)
  {
  }

  /** One turn of the install loop, up to the first failing operation. */
  method InstallFile(vol: Volume, k: Package, n: Name, included: bool, fault: Fault)
    returns (o: Outcome<()>, moved: bool, placed: bool)
    requires Open(k, vol.ViewOf(k), Pending, vol.pre, vol.post)
    requires Covers(k, n) && (included <==> n in vol.post)
    requires Untouched(vol.DirsOf(k).pending.value, vol.ViewOf(k), vol.DirsOf(k).rollback.value.files, vol.pre, vol.post, n)
    modifies vol`data, vol`restore, vol`merge, vol`power
    ensures o.PowerLoss? ==> vol.power == 0
    ensures vol.OtherDirs(k) == old(vol.OtherDirs(k))
    ensures Open(k, vol.ViewOf(k), Pending, vol.pre, vol.post)
    ensures o.Refused? ==> fault in {AtMove(n), AtInstall(n), AtChmod(n)}
    ensures o.Done? ==> (moved <==> n in old(vol.data)) && (placed <==> included)
    ensures moved ==> n in old(vol.data)
    ensures placed ==> included
    ensures vol.ViewOf(k) == Progress(old(vol.ViewOf(k)), n, moved, placed)
  {
    moved, placed := false, false;
    if n in vol.data {
      if fault == AtMove(n) {
        return Refused(Error.Fault), moved, placed;
      }
      SetAsideKeepsMixed(k, vol.ViewOf(k), vol.pre, vol.post, n);
      o := vol.Rename(k, Data, Rollback, n);
      if o.PowerLoss? {
        return;
      }
      moved := true;
    }
    if included {
      if fault == AtInstall(n) {
        return Refused(Error.Fault), moved, placed;
      }
      InstallKeepsMixed(k, vol.ViewOf(k), vol.pre, vol.post, n);
      o := vol.Rename(k, Pending, Data, n);
      if o.PowerLoss? {
        return;
      }
      placed := true;
      if fault == AtChmod(n) {
        return Refused(Error.Fault), moved, placed;
      }
    }
    o := Done(());
  }

  lemma ProgressInstalls(k: Package, v: View, pre: map<Name, Content>, post: map<Name, Content>, n: Name)
    requires Open(k, v, Pending, pre, post) && Covers(k, n)
    requires Untouched(v.dirs.pending.value, v, v.dirs.rollback.value.files, pre, post, n)
    ensures var w := Progress(v, n, n in v.data, n in post);
            Installed(w.dirs.pending.value, w, w.dirs.rollback.value.files, pre, post, n)
  {
  }

  /** The stations of all files while the loop has handled the first i names. */
  ghost predicate Front(k: Package, v: View, pre: map<Name, Content>, post: map<Name, Content>, i: nat)
    requires v.dirs.pending.Some? && v.dirs.rollback.Some? && i <= |Names(k)|
  {
    var sd, rb := v.dirs.pending.value, v.dirs.rollback.value.files;
    && (forall j :: 0 <= j < i ==> Installed(sd, v, rb, pre, post, Names(k)[j]))
    && (forall j :: i <= j < |Names(k)| ==> Untouched(sd, v, rb, pre, post, Names(k)[j]))
  }

  lemma FrontAdvances(k: Package, v: View, pre: map<Name, Content>, post: map<Name, Content>, i: nat)
    requires i < |Names(k)| && Open(k, v, Pending, pre, post) && Front(k, v, pre, post, i)
    ensures var n := Names(k)[i];
            var w := Progress(v, n, n in v.data, n in post);
            w.dirs.pending.Some? && w.dirs.rollback.Some? && Front(k, w, pre, post, i + 1)
  {
    var n := Names(k)[i];
    var w := Progress(v, n, n in v.data, n in post);
    ProgressInstalls(k, v, pre, post, n);
    forall j | 0 <= j < |Names(k)| && j != i
      ensures j < i ==> Installed(w.dirs.pending.value, w, w.dirs.rollback.value.files, pre, post, Names(k)[j])
      ensures j > i ==> Untouched(w.dirs.pending.value, w, w.dirs.rollback.value.files, pre, post, Names(k)[j])
    {
      assert Names(k)[j] != n;
      ProgressFrame(v, n, n in v.data, n in post, Names(k)[j]);
    }
  }

  lemma FrontComplete(k: Package, v: View, pre: map<Name, Content>, post: map<Name, Content>)
    requires Open(k, v, Pending, pre, post) && Front(k, v, pre, post, |Names(k)|)
    ensures v.data == post
    ensures Complete(k, View(v.data, v.dirs.(applied := v.dirs.pending, pending := None)), pre, post)
  {
    forall n ensures Same(v.data, post, n) {
      if Covers(k, n) {
        var j :| 0 <= j < |Names(k)| && Names(k)[j] == n;
      }
    }
    SameEverywhere(v.data, post);
    var sd, rb := v.dirs.pending.value, v.dirs.rollback.value.files;
    var w := View(v.data, v.dirs.(applied := v.dirs.pending, pending := None));
    forall n | Covers(k, n)
      ensures Installed(sd, w, rb, pre, post, n)
    {
      var j :| 0 <= j < |Names(k)| && Names(k)[j] == n;
      assert Installed(sd, v, rb, pre, post, Names(k)[j]);
    }
  }

  lemma AccountedAdvances(v: View, pre: map<Name, Content>, post: map<Name, Content>,
                          movedOld: seq<Name>, installed: seq<Name>, n: Name, moved: bool, placed: bool)
    requires v.dirs.pending.Some? && v.dirs.rollback.Some?
    requires Accounted(v, post, movedOld, installed)
    requires Covers(Restore, n) && Untouched(v.dirs.pending.value, v, v.dirs.rollback.value.files, pre, post, n)
    requires (moved ==> n in v.data) && (placed ==> n in post)
    ensures Accounted(Progress(v, n, moved, placed), post,
                      if moved then movedOld + [n] else movedOld, if placed then installed + [n] else installed)
  {
    var w := Progress(v, n, moved, placed);
    var movedOld' := if moved then movedOld + [n] else movedOld;
    var installed' := if placed then installed + [n] else installed;
    assert n !in movedOld && n !in installed;
    forall m
      ensures m in movedOld' <==> m in w.dirs.rollback.value.files
      ensures m in installed' <==> Covers(Restore, m) && m in post && m !in w.dirs.pending.value.files
    {
      if m != n {
        ProgressFrame(v, n, moved, placed, m);
      }
    }
  }

  lemma ReturnLast(v: View, pre: map<Name, Content>, post: map<Name, Content>, movedOld: seq<Name>, installed: seq<Name>)
    requires Open(Restore, v, Pending, pre, post) && Accounted(v, post, movedOld, installed)
    requires installed != []
    ensures var n := installed[|installed| - 1];
            && n in v.data
            && Open(Restore, MoveFile(v, Data, Pending, n), Pending, pre, post)
            && Accounted(MoveFile(v, Data, Pending, n), post, movedOld, installed[..|installed| - 1])
  {
    var last := |installed| - 1;
    var n := installed[last];
    assert n in installed;
    StationOf(Restore, Pending, v, pre, post, n);
    ReturnKeepsMixed(Restore, Pending, v, pre, post, n);
    AllButLast(installed);
  }

  lemma AllButLast(names: seq<Name>)
    requires names != [] && forall i, j :: 0 <= i < j < |names| ==> names[i] != names[j]
    ensures forall n :: n in names[..|names| - 1] <==> n in names && n != names[|names| - 1]
  {
    assert names == names[..|names| - 1] + [names[|names| - 1]];
  }

  lemma PutBackLast(v: View, pre: map<Name, Content>, post: map<Name, Content>, movedOld: seq<Name>)
    requires Open(Restore, v, Pending, pre, post) && Accounted(v, post, movedOld, [])
    requires movedOld != []
    ensures var n := movedOld[|movedOld| - 1];
            && n in v.dirs.rollback.value.files
            && Open(Restore, MoveFile(v, Rollback, Data, n), Pending, pre, post)
            && Accounted(MoveFile(v, Rollback, Data, n), post, movedOld[..|movedOld| - 1], [])
  {
    var last := |movedOld| - 1;
    var n := movedOld[last];
    assert n in movedOld;
    StationOf(Restore, Pending, v, pre, post, n);
    PutBackKeepsMixed(Restore, Pending, v, pre, post, n);
    AllButLast(movedOld);
  }

  /** The rollback closure: installed files back to staging, then originals back, both newest first. */
  method UndoInProcess(vol: Volume, movedOld: seq<Name>, installed: seq<Name>) returns (o: Outcome<()>)
    requires Open(Restore, vol.ViewOf(Restore), Pending, vol.pre, vol.post)
    requires Accounted(vol.ViewOf(Restore), vol.post, movedOld, installed)
    modifies vol`data, vol`restore, vol`merge, vol`power
    ensures o.PowerLoss? ==> vol.power == 0
    ensures vol.merge == old(vol.merge)
    ensures !o.Refused?
    ensures Open(Restore, vol.ViewOf(Restore), Pending, vol.pre, vol.post)
    ensures o.Done? ==> vol.data == vol.pre && vol.restore.rollback.value.files == map[]
    ensures o.Done? ==> Staged(Restore, vol.restore.pending.value)
  {
    var _ :- ReturnInstalled(vol, movedOld, installed);
    var _ :- PutBackMoved(vol, movedOld);
    EmptiedIsPre(vol.ViewOf(Restore), vol.pre, vol.post);
    o := Done(());
  }

  lemma Shorter(names: seq<Name>, i: nat)
    requires i < |names|
    ensures names[..i + 1][..i] == names[..i]
  {
  }

  method ReturnInstalled(vol: Volume, ghost movedOld: seq<Name>, installed: seq<Name>) returns (o: Outcome<()>)
    requires Open(Restore, vol.ViewOf(Restore), Pending, vol.pre, vol.post)
    requires Accounted(vol.ViewOf(Restore), vol.post, movedOld, installed)
    modifies vol`data, vol`restore, vol`merge, vol`power
    ensures o.PowerLoss? ==> vol.power == 0
    ensures vol.merge == old(vol.merge) && !o.Refused?
    ensures Open(Restore, vol.ViewOf(Restore), Pending, vol.pre, vol.post)
    ensures o.Done? ==> Accounted(vol.ViewOf(Restore), vol.post, movedOld, [])
  {
    var i := |installed|;
    assert installed[..i] == installed;
    while i > 0
      invariant 0 <= i <= |installed|
      invariant vol.merge == old(vol.merge)
      invariant Open(Restore, vol.ViewOf(Restore), Pending, vol.pre, vol.post)
      invariant Accounted(vol.ViewOf(Restore), vol.post, movedOld, installed[..i])
    {
      i := i - 1;
      var _ :- ReturnOne(vol, movedOld, installed[..i + 1]);
      Shorter(installed, i);
    }
    assert installed[..0] == [];
    o := Done(());
  }

  method ReturnOne(vol: Volume, ghost movedOld: seq<Name>, installed: seq<Name>) returns (o: Outcome<()>)
    requires Open(Restore, vol.ViewOf(Restore), Pending, vol.pre, vol.post) && installed != []
    requires Accounted(vol.ViewOf(Restore), vol.post, movedOld, installed)
    modifies vol`data, vol`restore, vol`merge, vol`power
    ensures o.PowerLoss? ==> vol.power == 0
    ensures vol.merge == old(vol.merge) && !o.Refused?
    ensures Open(Restore, vol.ViewOf(Restore), Pending, vol.pre, vol.post)
    ensures o.Done? ==> Accounted(vol.ViewOf(Restore), vol.post, movedOld, installed[..|installed| - 1])
  {
    ReturnLast(vol.ViewOf(Restore), vol.pre, vol.post, movedOld, installed);
    o := vol.Rename(Restore, Data, Pending, installed[|installed| - 1]);
  }

  method PutBackMoved(vol: Volume, movedOld: seq<Name>) returns (o: Outcome<()>)
    requires Open(Restore, vol.ViewOf(Restore), Pending, vol.pre, vol.post)
    requires Accounted(vol.ViewOf(Restore), vol.post, movedOld, [])
    modifies vol`data, vol`restore, vol`merge, vol`power
    ensures o.PowerLoss? ==> vol.power == 0
    ensures vol.merge == old(vol.merge) && !o.Refused?
    ensures Open(Restore, vol.ViewOf(Restore), Pending, vol.pre, vol.post)
    ensures o.Done? ==> Accounted(vol.ViewOf(Restore), vol.post, [], [])
  {
    var i := |movedOld|;
    assert movedOld[..i] == movedOld;
    while i > 0
      invariant 0 <= i <= |movedOld|
      invariant vol.merge == old(vol.merge)
      invariant Open(Restore, vol.ViewOf(Restore), Pending, vol.pre, vol.post)
      invariant Accounted(vol.ViewOf(Restore), vol.post, movedOld[..i], [])
    {
      i := i - 1;
      var _ :- PutBackOne(vol, movedOld[..i + 1]);
      Shorter(movedOld, i);
    }
    assert movedOld[..0] == [];
    o := Done(());
  }

  method PutBackOne(vol: Volume, movedOld: seq<Name>) returns (o: Outcome<()>)
    requires Open(Restore, vol.ViewOf(Restore), Pending, vol.pre, vol.post) && movedOld != []
    requires Accounted(vol.ViewOf(Restore), vol.post, movedOld, [])
    modifies vol`data, vol`restore, vol`merge, vol`power
    ensures o.PowerLoss? ==> vol.power == 0
    ensures vol.merge == old(vol.merge) && !o.Refused?
    ensures Open(Restore, vol.ViewOf(Restore), Pending, vol.pre, vol.post)
    ensures o.Done? ==> Accounted(vol.ViewOf(Restore), vol.post, movedOld[..|movedOld| - 1], [])
  {
    PutBackLast(vol.ViewOf(Restore), vol.pre, vol.post, movedOld);
    o := vol.Rename(Restore, Rollback, Data, movedOld[|movedOld| - 1]);
  }

  lemma StationOf(k: Package, at: Place, v: View, pre: map<Name, Content>, post: map<Name, Content>, n: Name)
    requires Open(k, v, at, pre, post)
    ensures var sd, rb := StateAt(v.dirs, at).value, v.dirs.rollback.value.files;
            if Covers(k, n)
            then Untouched(sd, v, rb, pre, post, n) || SetAside(sd, v, rb, pre, post, n) || Installed(sd, v, rb, pre, post, n)
            else Same(v.data, pre, n) && n !in rb && n !in sd.files
    ensures Includes(k, StateAt(v.dirs, at).value, n) <==> Covers(k, n) && n in post
  {
    assert Covers(k, n) || !Covers(k, n);
  }

  lemma EmptiedIsPre(v: View, pre: map<Name, Content>, post: map<Name, Content>)
    requires Open(Restore, v, Pending, pre, post) && Accounted(v, post, [], [])
    ensures v.data == pre && v.dirs.rollback.value.files == map[] && Staged(Restore, v.dirs.pending.value)
  {
    var sd, rb := v.dirs.pending.value, v.dirs.rollback.value.files;
    forall n
      ensures Same(v.data, pre, n)
      ensures n in sd.files.Keys <==> n in sd.manifest.value
    {
      StationOf(Restore, Pending, v, pre, post, n);
    }
    SameEverywhere(v.data, pre);
    assert rb.Keys == {};
  }

  // ----- backup restore -----

  /** Re-validates every included file in place: truncate, then write the cleaned text. */
  method LoadPending(vol: Volume, sanitize: (Name, Content) -> Option<Content>) returns (o: Outcome<()>)
    requires Idle(Restore, vol.ViewOf(Restore)) && vol.restore.pending.Some?
    modifies vol`data, vol`restore, vol`merge, vol`power
    ensures o.PowerLoss? ==> vol.power == 0
    ensures vol.data == old(vol.data) && vol.merge == old(vol.merge)
    ensures Idle(Restore, vol.ViewOf(Restore)) && vol.restore.pending.Some?
    ensures !o.PowerLoss? ==> (o.Done? <==> Clean(old(vol.restore.pending.value.files), sanitize))
    ensures o.Done? ==> vol.restore.pending.value.files == Cleaned(old(vol.restore.pending.value.files), sanitize)
    ensures CutOff(old(vol.restore.pending.value.files), vol.restore.pending.value.files, sanitize)
    ensures old(vol.power) == 1 && old(vol.restore.pending.value.files) != map[] && Clean(old(vol.restore.pending.value.files), sanitize) ==>
              o.PowerLoss? && HasEmpty(vol.restore.pending.value.files)
  {
    ghost var before := vol.restore;
    var todo := vol.restore.pending.value.files.Keys;
    while todo != {}
      invariant vol.data == old(vol.data) && vol.merge == old(vol.merge)
      invariant Idle(Restore, vol.ViewOf(Restore)) && Sanitized(before, vol.restore, todo, sanitize)
      invariant (vol.power == old(vol.power) && todo == before.pending.value.files.Keys) || vol.power + 2 <= old(vol.power)
      decreases todo
    {
      var n :| n in todo;
      o := LoadOne(vol, n, sanitize, before, todo);
      if !o.Done? {
        return;
      }
      todo := todo - {n};
    }
    SanitizedAll(before, vol.restore, sanitize);
    o := Done(());
  }

  /** One turn of the loop. */
  method LoadOne(vol: Volume, n: Name, sanitize: (Name, Content) -> Option<Content>, ghost before: Dirs, ghost todo: set<Name>) returns (o: Outcome<()>)
    requires Idle(Restore, vol.ViewOf(Restore)) && before.pending.Some? && Sanitized(before, vol.restore, todo, sanitize) && n in todo
    modifies vol`data, vol`restore, vol`merge, vol`power
    ensures o.PowerLoss? ==> vol.power == 0
    ensures vol.data == old(vol.data) && vol.merge == old(vol.merge)
    ensures Idle(Restore, vol.ViewOf(Restore)) && vol.restore.pending.Some?
    ensures o.Refused? <==> sanitize(n, before.pending.value.files[n]).None?
    ensures o.Done? ==> Sanitized(before, vol.restore, todo - {n}, sanitize) && vol.power + 2 == old(vol.power)
    ensures CutOff(before.pending.value.files, vol.restore.pending.value.files, sanitize)
    ensures old(vol.power) == 1 && !o.Refused? ==> o.PowerLoss? && HasEmpty(vol.restore.pending.value.files)
  {
    SanitizedIsWhole(before, vol.restore, todo, sanitize);
    var clean := sanitize(n, vol.restore.pending.value.files[n]);
    if clean.None? {
      return Refused(Rejected);
    }
    SanitizedStep(before, vol.restore, todo, sanitize, n);
    OneIsTorn(before, vol.restore, todo, sanitize, n);
    o := Rewrite(vol, n, clean.value);
    assert o.PowerLoss? && old(vol.power) == 1 ==> vol.restore.pending.value.files[n] == "";
    if o.Done? {
      SanitizedIsWhole(before, vol.restore, todo - {n}, sanitize);
    }
  }

  /** The staged files so far, when those of `todo` are still to be validated. */
  ghost predicate Sanitized(before: Dirs, after: Dirs, todo: set<Name>, sanitize: (Name, Content) -> Option<Content>)
    requires before.pending.Some?
  {
    && after.pending.Some? && after == before.(pending := after.pending)
    && after.pending.value.manifest == before.pending.value.manifest
    && todo <= before.pending.value.files.Keys == after.pending.value.files.Keys
    && (forall n :: n in todo ==> after.pending.value.files[n] == before.pending.value.files[n])
    && (forall n :: n in before.pending.value.files.Keys - todo ==> sanitize(n, before.pending.value.files[n]) == Some(after.pending.value.files[n]))
  }

  lemma SanitizedStep(before: Dirs, after: Dirs, todo: set<Name>, sanitize: (Name, Content) -> Option<Content>, n: Name)
    requires before.pending.Some? && Sanitized(before, after, todo, sanitize) && n in todo && sanitize(n, before.pending.value.files[n]).Some?
    ensures var sd := after.pending.value;
            var more := after.(pending := Some(sd.(files := sd.files[n := sanitize(n, sd.files[n]).value])));
            Sanitized(before, more, todo - {n}, sanitize)
  {
  }

  predicate HasEmpty(files: map<Name, Content>) {
    exists n :: n in files && files[n] == ""
  }

  /** What a validation leaves that may have been cut off: every file is as staged or as cleaned, but
      the one that was being written may be empty, and a file that is refused is not touched. */
  ghost predicate CutOff(before: map<Name, Content>, after: map<Name, Content>, sanitize: (Name, Content) -> Option<Content>) {
    && after.Keys == before.Keys
    && (forall n :: n in before ==> Whole(before, after, sanitize, n) || (after[n] == "" && sanitize(n, before[n]).Some?))
    && (forall n, m :: n in before && m in before && n != m ==> Whole(before, after, sanitize, n) || Whole(before, after, sanitize, m))
  }

  predicate Whole(before: map<Name, Content>, after: map<Name, Content>, sanitize: (Name, Content) -> Option<Content>, n: Name)
    requires n in before && n in after
  {
    after[n] == before[n] || sanitize(n, before[n]) == Some(after[n])
  }

  lemma SanitizedIsWhole(before: Dirs, after: Dirs, todo: set<Name>, sanitize: (Name, Content) -> Option<Content>)
    requires before.pending.Some? && Sanitized(before, after, todo, sanitize)
    ensures CutOff(before.pending.value.files, after.pending.value.files, sanitize)
  {
  }

  lemma OneIsTorn(before: Dirs, after: Dirs, todo: set<Name>, sanitize: (Name, Content) -> Option<Content>, n: Name)
    requires before.pending.Some? && Sanitized(before, after, todo, sanitize) && n in todo && sanitize(n, before.pending.value.files[n]).Some?
    ensures CutOff(before.pending.value.files, after.pending.value.files, sanitize)
    ensures CutOff(before.pending.value.files, after.pending.value.files[n := ""], sanitize)
  {
  }

  lemma SanitizedAll(before: Dirs, after: Dirs, sanitize: (Name, Content) -> Option<Content>)
    requires before.pending.Some? && Sanitized(before, after, {}, sanitize)
    ensures Clean(before.pending.value.files, sanitize)
    ensures after.pending.value.files == Cleaned(before.pending.value.files, sanitize)
    ensures CutOff(before.pending.value.files, after.pending.value.files, sanitize)
  {
  }

  /** Writing a file in place truncates it first. */
  method Rewrite(vol: Volume, n: Name, text: Content) returns (o: Outcome<()>)
    requires Idle(Restore, vol.ViewOf(Restore)) && vol.restore.pending.Some? && n in vol.restore.pending.value.files
    modifies vol`data, vol`restore, vol`merge, vol`power
    ensures o.PowerLoss? ==> vol.power == 0
    ensures vol.data == old(vol.data) && vol.merge == old(vol.merge)
    ensures Idle(Restore, vol.ViewOf(Restore)) && vol.restore.pending.Some? && !o.Refused?
    ensures o.Done? ==> vol.restore == WithStaged(old(vol.restore), n, text) && vol.power + 2 == old(vol.power)
    ensures o.PowerLoss? ==> vol.restore == if old(vol.power) == 0 then old(vol.restore) else WithStaged(old(vol.restore), n, "")
  {
    var sd := vol.restore.pending.value;
    var torn := sd.(files := sd.files[n := ""]);
    var _ :- vol.Step(Restore, View(vol.data, vol.restore.(pending := Some(torn))));
    o := vol.Step(Restore, View(vol.data, vol.restore.(pending := Some(sd.(files := sd.files[n := text])))));
  }

  function WithStaged(d: Dirs, n: Name, text: Content): Dirs
    requires d.pending.Some?
  {
    d.(pending := Some(d.pending.value.(files := d.pending.value.files[n := text])))
  }

  /** The texts are JSON objects: an empty one is refused, and what was cleaned is accepted again. */
  ghost predicate Sane(sanitize: (Name, Content) -> Option<Content>) {
    && (forall n :: sanitize(n, "").None?)
    && (forall n, c :: sanitize(n, c).Some? ==> sanitize(n, sanitize(n, c).value).Some?)
  }

  /** After a validation of acceptable files was cut off, the next one succeeds exactly when no file was
      left empty. */
  lemma CutOffIsClean(before: map<Name, Content>, after: map<Name, Content>, sanitize: (Name, Content) -> Option<Content>)
    requires CutOff(before, after, sanitize) && Clean(before, sanitize) && Sane(sanitize)
    ensures Clean(after, sanitize) <==> !HasEmpty(after)
  {
    forall n | n in after && after[n] != "" ensures sanitize(n, after[n]).Some? {
      assert Whole(before, after, sanitize, n);
      assert sanitize(n, before[n]).Some?;
    }
  }

  predicate Clean(files: map<Name, Content>, sanitize: (Name, Content) -> Option<Content>) {
    forall n :: n in files ==> sanitize(n, files[n]).Some?
  }

  function Cleaned(files: map<Name, Content>, sanitize: (Name, Content) -> Option<Content>): map<Name, Content>
    requires Clean(files, sanitize)
  {
    map n | n in files :: sanitize(n, files[n]).value
  }

  predicate CanApply(d: Dirs) {
    d.pending.Some? && d.applied.None? && d.rollback.None?
  }

  method ApplyRestore(vol: Volume, sanitize: (Name, Content) -> Option<Content>, fault: Fault) returns (o: Outcome<bool>)
    requires vol.restore.applied.None? && vol.restore.rollback.None? ==> Idle(Restore, vol.ViewOf(Restore))
    modifies vol`data, vol`restore, vol`merge, vol`power, vol`pre, vol`post
    ensures o.PowerLoss? ==> vol.power == 0
    ensures vol.merge == old(vol.merge)
    ensures o.Done? && !o.value ==>
              && vol.ViewOf(Restore) == old(vol.ViewOf(Restore)) && vol.pre == old(vol.pre) && vol.post == old(vol.post)
              && (vol.restore.pending.None? || vol.restore.applied.Some? || vol.restore.rollback.Some?)
    ensures o.Done? && o.value ==>
              && old(vol.restore.pending).Some? && Clean(old(vol.restore.pending).value.files, sanitize)
              && Complete(Restore, vol.ViewOf(Restore), old(vol.data), vol.post) && vol.pre == old(vol.data)
              && vol.post == Target(Restore, old(vol.data), Cleaned(old(vol.restore.pending).value.files, sanitize))
    ensures old(vol.restore) == NO_DIRS ==> o.Done? && !o.value
    ensures o.Refused? ==> Idle(Restore, vol.ViewOf(Restore)) && vol.data == old(vol.data)
    ensures o.PowerLoss? ==>
              PreBound(Restore, vol.ViewOf(Restore), old(vol.data), vol.post) && vol.pre == old(vol.data) && vol.restore.applied.None?
    ensures o.PowerLoss? && vol.restore.rollback.Some? ==>
              && old(vol.restore.pending).Some? && Clean(old(vol.restore.pending).value.files, sanitize)
              && vol.post == Target(Restore, old(vol.data), Cleaned(old(vol.restore.pending).value.files, sanitize))
    ensures o.Refused? && fault.NoFault? ==>
              old(vol.restore.pending).Some? && !Clean(old(vol.restore.pending).value.files, sanitize)
    // one refused file refuses the whole restore
    ensures CanApply(old(vol.restore)) && !Clean(old(vol.restore.pending).value.files, sanitize) ==>
              && !o.Done? && vol.data == old(vol.data) && CanApply(vol.restore)
              && CutOff(old(vol.restore.pending).value.files, vol.restore.pending.value.files, sanitize)
    ensures CanApply(old(vol.restore)) && old(vol.power) == 1 && old(vol.restore.pending).value.files != map[]
            && Clean(old(vol.restore.pending).value.files, sanitize) ==>
              && o.PowerLoss? && CanApply(vol.restore) && vol.data == old(vol.data)
              && HasEmpty(vol.restore.pending.value.files)
  {
    if vol.restore.applied.Some? || vol.restore.rollback.Some? || vol.restore.pending.None? {
      return Done(false);
    }
    ghost var staged := vol.restore.pending.value;
    vol.pre := vol.data;
    var _ :- LoadPending(vol, sanitize);
    var included := vol.restore.pending.value.manifest.value;
    vol.post := Target(Restore, vol.data, vol.restore.pending.value.files);
    var _ :- vol.Step(Restore, View(vol.data, vol.restore.(rollback := Some(RollbackDir(map[], Missing)))));
    OpensUntouched(Restore, vol.ViewOf(Restore));
    o := InstallRestore(vol, included, fault);
  }

  /** The install loop and the final rename of the pending directory. */
  method InstallRestore(vol: Volume, included: set<Name>, fault: Fault) returns (o: Outcome<bool>)
    requires Open(Restore, vol.ViewOf(Restore), Pending, vol.pre, vol.post)
    requires Front(Restore, vol.ViewOf(Restore), vol.pre, vol.post, 0)
    requires vol.restore.rollback.value.files == map[]
    requires vol.restore.pending.value.manifest == Some(included)
    modifies vol`data, vol`restore, vol`merge, vol`power
    ensures o.PowerLoss? ==> vol.power == 0
    ensures vol.merge == old(vol.merge)
    ensures o.Done? ==> o.value && Complete(Restore, vol.ViewOf(Restore), vol.pre, vol.post)
    ensures o.Refused? ==> Idle(Restore, vol.ViewOf(Restore)) && vol.data == vol.pre && !fault.NoFault?
    ensures o.PowerLoss? ==> PreBound(Restore, vol.ViewOf(Restore), vol.pre, vol.post) && vol.restore.applied.None?
  {
    var movedOld: seq<Name>, installed: seq<Name> := [], [];
    var names := Names(Restore);
    AccountedNothing(vol.ViewOf(Restore), vol.pre, vol.post);
    for i := 0 to |names|
      invariant vol.merge == old(vol.merge)
      invariant Open(Restore, vol.ViewOf(Restore), Pending, vol.pre, vol.post)
      invariant Front(Restore, vol.ViewOf(Restore), vol.pre, vol.post, i)
      invariant Accounted(vol.ViewOf(Restore), vol.post, movedOld, installed)
      invariant vol.restore.pending.value.manifest == Some(included)
    {
      var n := names[i];
      ghost var v := vol.ViewOf(Restore);
      StationOf(Restore, Pending, v, vol.pre, vol.post, n);
      assert Covers(Restore, n) && Untouched(v.dirs.pending.value, v, v.dirs.rollback.value.files, vol.pre, vol.post, n);
      FrontAdvances(Restore, v, vol.pre, vol.post, i);
      var step, moved, placed := InstallFile(vol, Restore, n, n in included, fault);
      AccountedAdvances(v, vol.pre, vol.post, movedOld, installed, n, moved, placed);
      movedOld := if moved then movedOld + [n] else movedOld;
      installed := if placed then installed + [n] else installed;
      if step.PowerLoss? {
        return PowerLoss;
      }
      if step.Refused? {
        o := Abandon(vol, movedOld, installed, step.error);
        return;
      }
    }
    FrontComplete(Restore, vol.ViewOf(Restore), vol.pre, vol.post);
    if fault.AtFinalize? {
      o := Abandon(vol, movedOld, installed, Error.Fault);
      return;
    }
    var _ :- vol.Step(Restore, View(vol.data, vol.restore.(applied := vol.restore.pending, pending := None)));
    o := Done(true);
  }

  lemma AccountedNothing(v: View, pre: map<Name, Content>, post: map<Name, Content>)
    requires Open(Restore, v, Pending, pre, post) && Front(Restore, v, pre, post, 0)
    requires v.dirs.rollback.value.files == map[]
    ensures Accounted(v, post, [], [])
  {
    forall n ensures !(Covers(Restore, n) && n in post && n !in v.dirs.pending.value.files) {
      if Covers(Restore, n) {
        var j :| 0 <= j < |Names(Restore)| && Names(Restore)[j] == n;
        assert Untouched(v.dirs.pending.value, v, v.dirs.rollback.value.files, pre, post, Names(Restore)[j]);
      }
    }
  }

  /** The error exit of ApplyRestore: roll back, then the deferred removal of the rollback directory. */
  method Abandon(vol: Volume, movedOld: seq<Name>, installed: seq<Name>, cause: Error) returns (o: Outcome<bool>)
    requires Open(Restore, vol.ViewOf(Restore), Pending, vol.pre, vol.post)
    requires Accounted(vol.ViewOf(Restore), vol.post, movedOld, installed)
    modifies vol`data, vol`restore, vol`merge, vol`power
    ensures o.PowerLoss? ==> vol.power == 0
    ensures vol.merge == old(vol.merge)
    ensures !o.Done?
    ensures o.Refused? ==> Idle(Restore, vol.ViewOf(Restore)) && vol.data == vol.pre
    ensures o.PowerLoss? ==> PreBound(Restore, vol.ViewOf(Restore), vol.pre, vol.post) && vol.restore.applied.None?
  {
    var _ :- UndoInProcess(vol, movedOld, installed);
    ghost var v := vol.ViewOf(Restore);
    var removed := vol.RemoveRollback(Restore);
    if removed.PowerLoss? {
      assert vol.restore.rollback.value.files == map[];
      StillOpen(Restore, Pending, vol.ViewOf(Restore), v, vol.pre, vol.post);
      return PowerLoss;
    }
    o := Refused(cause);
  }

  // ----- node merge -----

  /** Replaces one staged file durably: remove the old one, create, write. */
  method WriteStaged(vol: Volume, n: Name, c: Content) returns (o: Outcome<()>)
    requires Idle(NodeMerge, vol.ViewOf(NodeMerge)) && vol.merge.pending.Some? && Covers(NodeMerge, n)
    modifies vol`data, vol`restore, vol`merge, vol`power
    ensures o.PowerLoss? ==> vol.power == 0
    ensures vol.data == old(vol.data) && vol.restore == old(vol.restore) && !o.Refused?
    ensures vol.merge.rollback == old(vol.merge.rollback)
    ensures Idle(NodeMerge, vol.ViewOf(NodeMerge)) && vol.merge.pending.Some?
    ensures o.Done? ==>
              vol.merge.pending.value == old(vol.merge.pending.value).(files := old(vol.merge.pending.value.files)[n := c])
  {
    var sd := vol.merge.pending.value;
    if n in sd.files {
      var without := sd.(files := sd.files - {n});
      var _ :- vol.Step(NodeMerge, View(vol.data, vol.merge.(pending := Some(without))));
    }
    var torn := sd.(files := sd.files[n := ""]);
    var _ :- vol.Step(NodeMerge, View(vol.data, vol.merge.(pending := Some(torn))));
    var written := sd.(files := sd.files[n := c]);
    o := vol.Step(NodeMerge, View(vol.data, vol.merge.(pending := Some(written))));
  }

  method StageMerged(vol: Volume, merged: map<Name, Content>) returns (o: Outcome<()>)
    requires Idle(NodeMerge, vol.ViewOf(NodeMerge)) && vol.merge.pending.Some?
    requires forall n :: n in merged <==> Covers(NodeMerge, n)
    modifies vol`data, vol`restore, vol`merge, vol`power
    ensures o.PowerLoss? ==> vol.power == 0
    ensures vol.data == old(vol.data) && vol.restore == old(vol.restore) && !o.Refused?
    ensures vol.merge.rollback == old(vol.merge.rollback)
    ensures Idle(NodeMerge, vol.ViewOf(NodeMerge)) && vol.merge.pending.Some?
    ensures o.Done? ==>
              vol.merge.pending.value.files == merged && vol.merge.pending.value.manifest == old(vol.merge.pending.value.manifest)
  {
    var names := Names(NodeMerge);
    assert forall n :: Covers(NodeMerge, n) <==> n == names[0] || n == names[1];
    var _ :- WriteStaged(vol, names[0], merged[names[0]]);
    var _ :- WriteStaged(vol, names[1], merged[names[1]]);
    SameEverywhere(vol.merge.pending.value.files, merged);
    o := Done(());
  }

  /** `merged` is the outcome of validating and merging the two files, None when that is refused. */
  method ApplyMerge(vol: Volume, merged: Option<map<Name, Content>>, fault: Fault) returns (o: Outcome<bool>)
    requires vol.merge.applied.None? && vol.merge.rollback.None? ==> Idle(NodeMerge, vol.ViewOf(NodeMerge))
    requires merged.Some? ==> forall n :: n in merged.value <==> Covers(NodeMerge, n)
    modifies vol`data, vol`restore, vol`merge, vol`power, vol`pre, vol`post
    ensures o.PowerLoss? ==> vol.power == 0
    ensures vol.restore == old(vol.restore)
    ensures o.Done? && !o.value ==>
              && vol.ViewOf(NodeMerge) == old(vol.ViewOf(NodeMerge)) && vol.pre == old(vol.pre) && vol.post == old(vol.post)
              && (vol.merge.pending.None? || vol.merge.applied.Some? || vol.merge.rollback.Some?)
    ensures o.Done? && o.value ==>
              && merged.Some? && vol.restore == NO_DIRS
              && Complete(NodeMerge, vol.ViewOf(NodeMerge), old(vol.data), vol.post) && vol.pre == old(vol.data)
              && vol.post == old(vol.data) + merged.value
    ensures o.Refused? ==> vol.data == old(vol.data)
    ensures o.Refused? ==> if o.error.Busy? then vol.merge == old(vol.merge) && vol.restore != NO_DIRS
                           else Idle(NodeMerge, vol.ViewOf(NodeMerge)) && vol.restore == NO_DIRS
    ensures o.PowerLoss? ==>
              PreBound(NodeMerge, vol.ViewOf(NodeMerge), old(vol.data), vol.post) && vol.pre == old(vol.data) && vol.merge.applied.None?
    ensures o.PowerLoss? ==> vol.restore == NO_DIRS
    ensures o.PowerLoss? && vol.merge.rollback.Some? ==> merged.Some? && vol.post == old(vol.data) + merged.value
    ensures Stranded(old(vol.merge)) ==> o.Refused? && vol.merge == old(vol.merge)
    ensures o.Done? && o.value ==> old(vol.merge.pending).Some? && old(vol.merge.pending).value.manifest.Some? && forall n :: Covers(NodeMerge, n) ==> n in old(vol.data)
    ensures o.Refused? && fault.NoFault? ==> vol.merge == old(vol.merge)
    ensures vol.restore == NO_DIRS && old(vol.merge.pending).None? ==> o == Done(false)
    ensures o.Refused? && fault.NoFault? ==>
              || vol.restore != NO_DIRS || merged.None?
              || (vol.merge.pending.Some? && vol.merge.pending.value.manifest.None?)
              || exists n :: Covers(NodeMerge, n) && n !in vol.data
  {
    if vol.restore.pending.Some? || vol.restore.applied.Some? || vol.restore.rollback.Some? {
      return Refused(Busy);
    }
    if vol.merge.applied.Some? || vol.merge.rollback.Some? || vol.merge.pending.None? {
      return Done(false);
    }
    if vol.merge.pending.value.manifest.None? {
      return Refused(Unreadable);
    }
    if merged.None? {
      return Refused(Rejected);
    }
    var names := Names(NodeMerge);
    if names[0] !in vol.data || names[1] !in vol.data {
      assert Covers(NodeMerge, names[0]) && Covers(NodeMerge, names[1]);
      return Refused(Unreadable);
    }
    vol.pre := vol.data;
    var _ :- StageMerged(vol, merged.value);
    o := OpenMerge(vol, merged.value, fault);
  }

  method OpenMerge(vol: Volume, merged: map<Name, Content>, fault: Fault) returns (o: Outcome<bool>)
    requires Idle(NodeMerge, vol.ViewOf(NodeMerge)) && vol.merge.pending.Some?
    requires vol.merge.pending.value.files == merged && vol.merge.pending.value.manifest.Some? && vol.pre == vol.data
    requires forall n :: n in merged <==> Covers(NodeMerge, n)
    requires forall n :: Covers(NodeMerge, n) ==> n in vol.data
    modifies vol`data, vol`restore, vol`merge, vol`power, vol`post
    ensures o.PowerLoss? ==> vol.power == 0
    ensures vol.restore == old(vol.restore)
    ensures o.Done? ==> o.value && Complete(NodeMerge, vol.ViewOf(NodeMerge), vol.pre, vol.post)
    ensures o.Done? || (o.PowerLoss? && vol.merge.rollback.Some?) ==> vol.post == vol.pre + merged
    ensures o.Refused? ==> !o.error.Busy? && Idle(NodeMerge, vol.ViewOf(NodeMerge)) && vol.data == vol.pre && !fault.NoFault?
    ensures o.PowerLoss? ==> PreBound(NodeMerge, vol.ViewOf(NodeMerge), vol.pre, vol.post) && vol.merge.applied.None?
  {
    vol.post := Target(NodeMerge, vol.data, merged);
    SameEverywhere(vol.post, vol.data + merged);
    var _ :- vol.Step(NodeMerge, View(vol.data, vol.merge.(rollback := Some(RollbackDir(map[], Missing)))));
    OpensUntouched(NodeMerge, vol.ViewOf(NodeMerge));
    o := InstallMerge(vol, fault);
  }

  method InstallMerge(vol: Volume, fault: Fault) returns (o: Outcome<bool>)
    requires Open(NodeMerge, vol.ViewOf(NodeMerge), Pending, vol.pre, vol.post)
    requires Front(NodeMerge, vol.ViewOf(NodeMerge), vol.pre, vol.post, 0)
    requires forall n :: Covers(NodeMerge, n) ==> n in vol.post
    modifies vol`data, vol`restore, vol`merge, vol`power
    ensures o.PowerLoss? ==> vol.power == 0
    ensures vol.restore == old(vol.restore)
    ensures o.Done? ==> o.value && Complete(NodeMerge, vol.ViewOf(NodeMerge), vol.pre, vol.post)
    ensures o.Refused? ==> !o.error.Busy? && Idle(NodeMerge, vol.ViewOf(NodeMerge)) && vol.data == vol.pre && !fault.NoFault?
    ensures o.PowerLoss? ==> PreBound(NodeMerge, vol.ViewOf(NodeMerge), vol.pre, vol.post) && vol.merge.applied.None?
  {
    var names := Names(NodeMerge);
    for i := 0 to |names|
      invariant vol.restore == old(vol.restore)
      invariant Open(NodeMerge, vol.ViewOf(NodeMerge), Pending, vol.pre, vol.post)
      invariant Front(NodeMerge, vol.ViewOf(NodeMerge), vol.pre, vol.post, i)
    {
      var n := names[i];
      ghost var v := vol.ViewOf(NodeMerge);
      assert Covers(NodeMerge, n) && Untouched(v.dirs.pending.value, v, v.dirs.rollback.value.files, vol.pre, vol.post, n);
      FrontAdvances(NodeMerge, v, vol.pre, vol.post, i);
      StationOf(NodeMerge, Pending, v, vol.pre, vol.post, n);
      var step, moved, placed := InstallFile(vol, NodeMerge, n, true, fault);
      if step.PowerLoss? {
        return PowerLoss;
      }
      if step.Refused? {
        o := AbandonMerge(vol, Error.Fault);
        return;
      }
    }
    FrontComplete(NodeMerge, vol.ViewOf(NodeMerge), vol.pre, vol.post);
    if fault.AtFinalize? {
      o := AbandonMerge(vol, Error.Fault);
      return;
    }
    var _ :- vol.Step(NodeMerge, View(vol.data, vol.merge.(applied := vol.merge.pending, pending := None)));
    o := Done(true);
  }

  method AbandonMerge(vol: Volume, cause: Error) returns (o: Outcome<bool>)
    requires Open(NodeMerge, vol.ViewOf(NodeMerge), Pending, vol.pre, vol.post) && !cause.Busy?
    modifies vol`data, vol`restore, vol`merge, vol`power
    ensures o.PowerLoss? ==> vol.power == 0
    ensures vol.restore == old(vol.restore)
    ensures !o.Done?
    ensures o.Refused? ==> o.error == cause && Idle(NodeMerge, vol.ViewOf(NodeMerge)) && vol.data == vol.pre
    ensures o.PowerLoss? ==> PreBound(NodeMerge, vol.ViewOf(NodeMerge), vol.pre, vol.post) && vol.merge.applied.None?
  {
    ghost var v := vol.ViewOf(NodeMerge);
    forall n ensures !Blocked(NodeMerge, v.dirs.pending.value, v.data, v.dirs.rollback.value.files, n) {
      OpenIsNotBlocked(NodeMerge, Pending, v, vol.pre, vol.post, n);
    }
    UndoRestores(NodeMerge, Pending, v, vol.pre, vol.post);
    var _ :- Undo(vol, NodeMerge, Pending, true);
    o := Refused(cause);
  }
}
