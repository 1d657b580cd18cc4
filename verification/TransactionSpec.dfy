/**
  What a half-finished transaction looks like, and where recovery takes it.

  `PreBound` and `PostBound` split every state a crash can leave behind by its
  fate: the first kind ends as the state files before the transaction, the second
  kind already holds the files it installed.
*/
module TransactionSpec {
  import opened Wrappers
  import opened Volumes

  const RESTORE_NAMES: seq<Name> := [
    "node_alert_state.json", "node_registry.json", "project_state.json", "remnawave_announce_config.json",
    "speedtest_results.json", "speedtest_schedule.json", "telegram_config.json"]

  const MERGE_NAMES: seq<Name> := ["node_registry.json", "speedtest_results.json"]

  function Names(k: Package): (names: seq<Name>)
    ensures forall i, j :: 0 <= i < j < |names| ==> names[i] != names[j]
  {
    if k.Restore? then RESTORE_NAMES else MERGE_NAMES
  }

  predicate Covers(k: Package, n: Name) {
    n in Names(k)
  }

  ghost function AllNames(k: Package): set<Name> {
    set n | n in Names(k)
  }

  predicate Same(a: map<Name, Content>, b: map<Name, Content>, n: Name) {
    (n in a <==> n in b) && (n in a ==> a[n] == b[n])
  }

  /** The backup state file names what it includes; a node merge always covers both its files. */
  predicate Includes(k: Package, sd: StateDir, n: Name) {
    Covers(k, n) && (k.NodeMerge? || (sd.manifest.Some? && n in sd.manifest.value))
  }

  // ----- the three stations of one file -----

  predicate Untouched(sd: StateDir, v: View, rb: map<Name, Content>, pre: map<Name, Content>, post: map<Name, Content>, n: Name) {
    && n !in rb && Same(v.data, pre, n)
    && Same(sd.files, post, n)
  }

  predicate SetAside(sd: StateDir, v: View, rb: map<Name, Content>, pre: map<Name, Content>, post: map<Name, Content>, n: Name) {
    && n in pre && n in rb && n !in v.data && Same(rb, pre, n)
    && Same(sd.files, post, n)
  }

  predicate Installed(sd: StateDir, v: View, rb: map<Name, Content>, pre: map<Name, Content>, post: map<Name, Content>, n: Name) {
    n !in sd.files && Same(rb, pre, n) && Same(v.data, post, n)
  }

  ghost predicate Mixed(k: Package, sd: StateDir, v: View, rb: map<Name, Content>, pre: map<Name, Content>, post: map<Name, Content>) {
    && sd.manifest.Some?
    && (forall n :: n in sd.manifest.value ==> Covers(k, n))
    && (forall n :: Includes(k, sd, n) <==> Covers(k, n) && n in post)
    && (forall n {:trigger Covers(k, n)} ::
          if Covers(k, n)
          then Untouched(sd, v, rb, pre, post, n) || SetAside(sd, v, rb, pre, post, n) || Installed(sd, v, rb, pre, post, n)
          else Same(v.data, pre, n) && Same(v.data, post, n) && n !in rb && n !in sd.files)
    && (k.NodeMerge? ==> forall n :: Covers(k, n) ==> n in pre)
  }

  /** A staged restore has exactly the files it names. A staged merge has whatever an earlier
      attempt left of the two merged files, and may have lost its instruction. */
  ghost predicate Staged(k: Package, sd: StateDir) {
    && (sd.manifest.Some? ==> forall n :: n in sd.manifest.value ==> Covers(k, n))
    && (forall n :: n in sd.files ==> Covers(k, n))
    && (k.Restore? ==> sd.manifest.Some? && sd.files.Keys == sd.manifest.value)
  }

  ghost predicate Idle(k: Package, v: View) {
    && v.dirs.applied.None? && v.dirs.rollback.None?
    && (v.dirs.pending.Some? ==> Staged(k, v.dirs.pending.value))
  }

  ghost predicate Open(k: Package, v: View, at: Place, pre: map<Name, Content>, post: map<Name, Content>) {
    && v.dirs.rollback.Some? && v.dirs.rollback.value.marker == Missing
    && (at.Pending? || at.Applied?)
    && (if at.Pending? then v.dirs.applied.None? else v.dirs.pending.None?)
    && StateAt(v.dirs, at).Some?
    && Mixed(k, StateAt(v.dirs, at).value, v, v.dirs.rollback.value.files, pre, post)
  }

  /** Every file is installed and the transaction waits for its confirmation. */
  ghost predicate Complete(k: Package, v: View, pre: map<Name, Content>, post: map<Name, Content>) {
    && Open(k, v, Applied, pre, post) && v.data == post
    && forall n :: Covers(k, n) ==> Installed(v.dirs.applied.value, v, v.dirs.rollback.value.files, pre, post, n)
  }

  ghost predicate PreBound(k: Package, v: View, pre: map<Name, Content>, post: map<Name, Content>) {
    || (v.data == pre && Idle(k, v))
    || (v.data == pre && v.dirs.rollback.None? && v.dirs.pending.None?)
    || Open(k, v, Pending, pre, post)
    || Open(k, v, Applied, pre, post)
  }

  /** The marker has been started. `TornMarker` and `LostMarker` are the two states recovery refuses. */
  ghost predicate PostBound(k: Package, v: View, post: map<Name, Content>) {
    && v.data == post
    && (|| Idle(k, v)
        || TornMarker(v.dirs)
        || LostMarker(v.dirs)
        || (v.dirs.rollback.Some? && v.dirs.rollback.value.marker == Confirmed && v.dirs.pending.None?))
  }

  /** What becomes of the transaction depends on whether its marker has been written out; only a torn
      marker holds the installed files without that. */
  ghost predicate Fated(k: Package, v: View, pre: map<Name, Content>, post: map<Name, Content>, committed: bool) {
    if committed then PostBound(k, v, post) && !TornMarker(v.dirs)
    else PreBound(k, v, pre, post) || (v.data == post && TornMarker(v.dirs))
  }

  /** A pending directory whose state file is gone. */
  predicate Stranded(d: Dirs) {
    d.pending.Some? && d.pending.value.manifest.None? && d.applied.None? && d.rollback.None?
  }

  predicate TornMarker(d: Dirs) {
    d.rollback.Some? && d.rollback.value.marker == Torn && d.pending.None?
  }

  predicate LostMarker(d: Dirs) {
    d.rollback.Some? && d.rollback.value.marker == Missing && d.applied.None? && d.pending.None?
  }

  // ----- recovery as a function -----

  /** A rollback takes the installed file n back to the state directory. */
  predicate Returned(k: Package, sd: StateDir, data: map<Name, Content>, rb: map<Name, Content>, n: Name) {
    Includes(k, sd, n) && n !in sd.files && n in data && (k.Restore? || n in rb)
  }

  predicate Blocked(k: Package, sd: StateDir, data: map<Name, Content>, rb: map<Name, Content>, n: Name) {
    Covers(k, n) && n in rb && n in data && !Returned(k, sd, data, rb, n)
  }

  /** The state files once the names in `done` are rolled back: the original, or nothing. */
  function UndoneData(k: Package, sd: StateDir, data: map<Name, Content>, rb: map<Name, Content>, done: set<Name>): (r: map<Name, Content>)
    ensures forall n :: n in r <==>
                        if n in done && n in rb then true else n in data && !(n in done && Returned(k, sd, data, rb, n))
    ensures forall n :: n in r ==> r[n] == if n in done && n in rb then rb[n] else data[n]
  {
    map n | n in data.Keys + rb.Keys
            && if n in done && n in rb then true else n in data && !(n in done && Returned(k, sd, data, rb, n)) ::
      if n in done && n in rb then rb[n] else data[n]
  }

  /** The staged files, with the installed ones of `done` back among them. */
  function UndoneStaged(k: Package, sd: StateDir, data: map<Name, Content>, rb: map<Name, Content>, done: set<Name>): (r: map<Name, Content>)
    ensures forall n :: n in r <==> n in sd.files || (n in done && Returned(k, sd, data, rb, n))
    ensures forall n :: n in r ==> if n in sd.files then r[n] == sd.files[n] else n in data && r[n] == data[n]
  {
    map n | n in sd.files.Keys + data.Keys && (n in sd.files || (n in done && Returned(k, sd, data, rb, n))) ::
      if n in sd.files then sd.files[n] else data[n]
  }

  /** The rollback of the names in `done`, whichever order they were handled in. */
  function Undone(k: Package, at: Place, v: View, done: set<Name>): View
    requires StateAt(v.dirs, at).Some? && v.dirs.rollback.Some?
  {
    var sd := StateAt(v.dirs, at).value;
    var rb := v.dirs.rollback.value.files;
    View(UndoneData(k, sd, v.data, rb, done),
         WithState(v.dirs, at, Some(sd.(files := UndoneStaged(k, sd, v.data, rb, done)))).(
           rollback := Some(v.dirs.rollback.value.(files := rb - done))))
  }

  function RollbackPlace(d: Dirs): Place {
    if d.applied.Some? then Applied else Pending
  }

  /** What startup recovery can handle, read off the directories before it starts. */
  ghost predicate CanRecover(k: Package, v: View) {
    match v.dirs.rollback
    case None => true
    case Some(rollback) =>
      match rollback.marker
      case Torn => false
      case Confirmed => true
      case Missing =>
        var state := StateAt(v.dirs, RollbackPlace(v.dirs));
        && state.Some?
        && (k.Restore? ==> state.value.manifest.Some?)
        && forall n {:trigger Blocked(k, state.value, v.data, rollback.files, n)} :: !Blocked(k, state.value, v.data, rollback.files, n)
  }

  ghost function Recovered(k: Package, v: View): View
    requires CanRecover(k, v)
  {
    if v.dirs.rollback.None? || v.dirs.rollback.value.marker == Confirmed then
      v.(dirs := v.dirs.(applied := None, rollback := None))
    else
      var undone := Undone(k, RollbackPlace(v.dirs), v, AllNames(k));
      undone.(dirs := undone.dirs.(applied := None, rollback := None))
  }

  // ----- single steps keep the invariant -----

  predicate AtStation(sd: StateDir, v: View, rb: map<Name, Content>, pre: map<Name, Content>, post: map<Name, Content>, n: Name) {
    Untouched(sd, v, rb, pre, post, n) || SetAside(sd, v, rb, pre, post, n) || Installed(sd, v, rb, pre, post, n)
  }

  /** The two views have the same directories, and differ in this file at most. */
  ghost predicate OnlyFile(at: Place, v: View, w: View, n: Name) {
    && StateAt(v.dirs, at).Some? && v.dirs.rollback.Some? && StateAt(w.dirs, at).Some? && w.dirs.rollback.Some?
    && StateAt(w.dirs, at).value.manifest == StateAt(v.dirs, at).value.manifest
    && w.dirs.rollback.value.marker == v.dirs.rollback.value.marker
    && (if at.Pending? then w.dirs.applied == v.dirs.applied else w.dirs.pending == v.dirs.pending)
    && forall m {:trigger SameFile(at, v, w, m)} :: m != n ==> SameFile(at, v, w, m)
  }

  predicate SameFile(at: Place, v: View, w: View, m: Name)
    requires StateAt(v.dirs, at).Some? && v.dirs.rollback.Some? && StateAt(w.dirs, at).Some? && w.dirs.rollback.Some?
  {
    && Same(w.data, v.data, m) && Same(StateAt(w.dirs, at).value.files, StateAt(v.dirs, at).value.files, m)
    && Same(w.dirs.rollback.value.files, v.dirs.rollback.value.files, m)
  }

  /** A move of one file concerns no other file. */
  lemma MoveIsOnlyFile(at: Place, v: View, from: Place, to: Place, n: Name)
    requires (at.Pending? || at.Applied?) && StateAt(v.dirs, at).Some? && v.dirs.rollback.Some?
    requires from != to && from in {Data, at, Rollback} && to in {Data, at, Rollback} && n in FilesAt(v, from)
    ensures OnlyFile(at, v, MoveFile(v, from, to, n), n)
  {
  }

  lemma SameFileSameStation(at: Place, v: View, w: View, pre: map<Name, Content>, post: map<Name, Content>, m: Name)
    requires StateAt(v.dirs, at).Some? && v.dirs.rollback.Some? && StateAt(w.dirs, at).Some? && w.dirs.rollback.Some?
    requires SameFile(at, v, w, m) && AtStation(StateAt(v.dirs, at).value, v, v.dirs.rollback.value.files, pre, post, m)
    ensures AtStation(StateAt(w.dirs, at).value, w, w.dirs.rollback.value.files, pre, post, m)
  {
  }

  /** Moving one file from one of its stations to another keeps all of them. */
  lemma MoveKeepsMixed(k: Package, at: Place, v: View, w: View, pre: map<Name, Content>, post: map<Name, Content>, n: Name)
    requires Open(k, v, at, pre, post) && OnlyFile(at, v, w, n)
    requires Covers(k, n) && AtStation(StateAt(w.dirs, at).value, w, w.dirs.rollback.value.files, pre, post, n)
    ensures Open(k, w, at, pre, post)
  {
    var sd, rb := StateAt(v.dirs, at).value, v.dirs.rollback.value.files;
    var sd', rb' := StateAt(w.dirs, at).value, w.dirs.rollback.value.files;
    forall m ensures Includes(k, sd', m) <==> Includes(k, sd, m) {
    }
    forall m | Covers(k, m) ensures AtStation(sd', w, rb', pre, post, m) {
      if m != n {
        assert AtStation(sd, v, rb, pre, post, m);
        SameFileSameStation(at, v, w, pre, post, m);
      }
    }
    forall m | !Covers(k, m) ensures Same(w.data, pre, m) && Same(w.data, post, m) && m !in rb' && m !in sd'.files {
      assert SameFile(at, v, w, m);
    }
  }

  lemma ReturnKeepsMixed(k: Package, at: Place, v: View, pre: map<Name, Content>, post: map<Name, Content>, n: Name)
    requires Open(k, v, at, pre, post)
    requires Returned(k, StateAt(v.dirs, at).value, v.data, v.dirs.rollback.value.files, n)
    ensures Open(k, MoveFile(v, Data, at, n), at, pre, post)
  {
    var sd, rb := StateAt(v.dirs, at).value, v.dirs.rollback.value.files;
    assert Covers(k, n) && Includes(k, sd, n);
    assert Installed(sd, v, rb, pre, post, n);
    MoveIsOnlyFile(at, v, Data, at, n);
    MoveKeepsMixed(k, at, v, MoveFile(v, Data, at, n), pre, post, n);
  }

  lemma PutBackKeepsMixed(k: Package, at: Place, v: View, pre: map<Name, Content>, post: map<Name, Content>, n: Name)
    requires Open(k, v, at, pre, post)
    requires Covers(k, n) && n in v.dirs.rollback.value.files && n !in v.data
    ensures Open(k, MoveFile(v, Rollback, Data, n), at, pre, post)
  {
    var sd, rb := StateAt(v.dirs, at).value, v.dirs.rollback.value.files;
    assert SetAside(sd, v, rb, pre, post, n) || Installed(sd, v, rb, pre, post, n);
    MoveIsOnlyFile(at, v, Rollback, Data, n);
    MoveKeepsMixed(k, at, v, MoveFile(v, Rollback, Data, n), pre, post, n);
  }

  lemma SetAsideKeepsMixed(k: Package, v: View, pre: map<Name, Content>, post: map<Name, Content>, n: Name)
    requires Open(k, v, Pending, pre, post)
    requires Covers(k, n) && n in v.data
    requires Untouched(v.dirs.pending.value, v, v.dirs.rollback.value.files, pre, post, n)
    ensures Open(k, MoveFile(v, Data, Rollback, n), Pending, pre, post)
    ensures n in post ==> SetAside(v.dirs.pending.value, MoveFile(v, Data, Rollback, n),
                                   MoveFile(v, Data, Rollback, n).dirs.rollback.value.files, pre, post, n)
  {
    MoveIsOnlyFile(Pending, v, Data, Rollback, n);
    MoveKeepsMixed(k, Pending, v, MoveFile(v, Data, Rollback, n), pre, post, n);
  }

  lemma InstallKeepsMixed(k: Package, v: View, pre: map<Name, Content>, post: map<Name, Content>, n: Name)
    requires Open(k, v, Pending, pre, post)
    requires Covers(k, n) && n in post && n in v.dirs.pending.value.files && n !in v.data
    ensures Open(k, MoveFile(v, Pending, Data, n), Pending, pre, post)
    ensures Installed(MoveFile(v, Pending, Data, n).dirs.pending.value, MoveFile(v, Pending, Data, n),
                      v.dirs.rollback.value.files, pre, post, n)
  {
    var sd, rb := v.dirs.pending.value, v.dirs.rollback.value.files;
    assert Untouched(sd, v, rb, pre, post, n) || SetAside(sd, v, rb, pre, post, n);
    MoveIsOnlyFile(Pending, v, Pending, Data, n);
    MoveKeepsMixed(k, Pending, v, MoveFile(v, Pending, Data, n), pre, post, n);
  }

  // ----- the theorems about recovery -----

  lemma OpenIsNotBlocked(k: Package, at: Place, v: View, pre: map<Name, Content>, post: map<Name, Content>, n: Name)
    requires Open(k, v, at, pre, post)
    ensures !Blocked(k, StateAt(v.dirs, at).value, v.data, v.dirs.rollback.value.files, n)
  {
    if Covers(k, n) {
      var sd, rb := StateAt(v.dirs, at).value, v.dirs.rollback.value.files;
      assert Untouched(sd, v, rb, pre, post, n) || SetAside(sd, v, rb, pre, post, n) || Installed(sd, v, rb, pre, post, n);
      assert Includes(k, sd, n) <==> n in post;
    }
  }

  /** Recovery refuses exactly the torn marker and the marker lost during cleanup. */
  lemma RecoverableExceptMarker(k: Package, v: View, pre: map<Name, Content>, post: map<Name, Content>)
    requires PreBound(k, v, pre, post) || PostBound(k, v, post)
    ensures CanRecover(k, v) <==> !TornMarker(v.dirs) && !LostMarker(v.dirs)
    ensures !CanRecover(k, v) ==> v.data == post
  {
    if Open(k, v, Pending, pre, post) || Open(k, v, Applied, pre, post) {
      var at := RollbackPlace(v.dirs);
      assert Open(k, v, at, pre, post);
      forall n ensures !Blocked(k, StateAt(v.dirs, at).value, v.data, v.dirs.rollback.value.files, n) {
        OpenIsNotBlocked(k, at, v, pre, post, n);
      }
    }
  }

  /** All or nothing: recovery yields the files before the transaction, or exactly the files it
      installed, and the latter just when the marker had been written out. */
  lemma AllOrNothing(k: Package, v: View, pre: map<Name, Content>, post: map<Name, Content>)
    requires PreBound(k, v, pre, post) || PostBound(k, v, post)
    requires CanRecover(k, v) && v.dirs.rollback.Some?
    ensures Idle(k, Recovered(k, v))
    ensures Recovered(k, v).data == if v.dirs.rollback.value.marker == Confirmed then post else pre
  {
    if v.dirs.rollback.value.marker != Confirmed {
      UndoRestores(k, RollbackPlace(v.dirs), v, pre, post);
    }
  }

  /** The same for a transaction whose marker is known to have been written out, or not. */
  lemma FateIsSettled(k: Package, v: View, pre: map<Name, Content>, post: map<Name, Content>, committed: bool)
    requires Fated(k, v, pre, post, committed) && CanRecover(k, v)
    ensures Idle(k, Recovered(k, v)) && Recovered(k, v).data == if committed then post else pre
  {
    if v.dirs.rollback.Some? {
      AllOrNothing(k, v, pre, post);
    }
  }

  lemma UndoRestoresName(k: Package, at: Place, v: View, pre: map<Name, Content>, post: map<Name, Content>, n: Name)
    requires Open(k, v, at, pre, post)
    ensures Same(Undone(k, at, v, AllNames(k)).data, pre, n)
    ensures n !in Undone(k, at, v, AllNames(k)).dirs.rollback.value.files
    ensures n in StateAt(Undone(k, at, v, AllNames(k)).dirs, at).value.files <==> Covers(k, n) && n in post
  {
    var sd, rb := StateAt(v.dirs, at).value, v.dirs.rollback.value.files;
    assert Covers(k, n) <==> n in AllNames(k);
    assert Covers(k, n) ==> Untouched(sd, v, rb, pre, post, n) || SetAside(sd, v, rb, pre, post, n) || Installed(sd, v, rb, pre, post, n);
    assert Includes(k, sd, n) <==> Covers(k, n) && n in post;
  }

  lemma UndoRestores(k: Package, at: Place, v: View, pre: map<Name, Content>, post: map<Name, Content>)
    requires Open(k, v, at, pre, post)
    ensures Undone(k, at, v, AllNames(k)).data == pre
    ensures Undone(k, at, v, AllNames(k)).dirs.rollback.value.files == map[]
    ensures at.Pending? ==> Staged(k, StateAt(Undone(k, at, v, AllNames(k)).dirs, at).value)
  {
    var w := Undone(k, at, v, AllNames(k));
    var rb', sd' := w.dirs.rollback.value.files, StateAt(w.dirs, at).value;
    forall n
      ensures Same(w.data, pre, n) && n !in rb' && (n in sd'.files <==> Covers(k, n) && n in post)
    {
      UndoRestoresName(k, at, v, pre, post, n);
    }
    SameEverywhere(w.data, pre);
    assert rb' == map[] by {
      assert rb'.Keys == {};
    }
    if at.Pending? && k.Restore? {
      forall n ensures n in sd'.files.Keys <==> n in sd'.manifest.value {
        assert Includes(k, StateAt(v.dirs, at).value, n) <==> Covers(k, n) && n in post;
      }
    }
  }

  lemma SameEverywhere(a: map<Name, Content>, b: map<Name, Content>)
    requires forall n :: Same(a, b, n)
    ensures a == b
  {
    forall n ensures n in a <==> n in b {
      assert Same(a, b, n);
    }
    forall n | n in a ensures a[n] == b[n] {
      assert Same(a, b, n);
    }
  }
}
