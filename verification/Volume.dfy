/**
  The data directory as a state that loses power.

  A volume holds the persisted state files and, for each of the two transaction
  packages, a pending, an applied and a rollback directory. Every primitive
  (rename, mkdir, one deletion inside RemoveAll, one write of the marker) costs
  one unit of `power`; with no power left it changes nothing and reports
  PowerLoss. A method verified for every `power` is a method verified for a
  crash after every one of its steps.
*/
module Volumes {
  import opened Wrappers

  type Name = string
  type Content = string

  datatype Package = Restore | NodeMerge

  datatype Marker = Missing | Torn | Confirmed

  /** A pending or applied directory: its state file and the staged files. `manifest` is
      None when the state file is gone, otherwise the names the transaction includes. */
  datatype StateDir = StateDir(manifest: Option<set<Name>>, files: map<Name, Content>)

  datatype RollbackDir = RollbackDir(files: map<Name, Content>, marker: Marker)

  datatype Dirs = Dirs(pending: Option<StateDir>, applied: Option<StateDir>, rollback: Option<RollbackDir>)

  /** What one package sees: the state files and its own three directories. */
  datatype View = View(data: map<Name, Content>, dirs: Dirs)

  datatype Place = Data | Pending | Applied | Rollback

  datatype Error = BadMarker | Incomplete | Unreadable | Conflict | AlreadyConfirmed | Rejected | Fault | Busy

  /** The result of a file operation or of a method made of them. */
  datatype Outcome<+T> = Done(value: T) | Refused(error: Error) | PowerLoss {
    predicate IsFailure() {
      !Done?
    }

    function PropagateFailure<U>(): Outcome<U>
      requires IsFailure()
    {
      if PowerLoss? then PowerLoss else Refused(error)
    }

    function Extract(): T
      requires Done?
    {
      value
    }
  }

  const NO_DIRS := Dirs(None, None, None)

  predicate HasDir(d: Dirs, p: Place) {
    match p
    case Data => true
    case Pending => d.pending.Some?
    case Applied => d.applied.Some?
    case Rollback => d.rollback.Some?
  }

  function FilesAt(v: View, p: Place): map<Name, Content>
    requires HasDir(v.dirs, p)
  {
    match p
    case Data => v.data
    case Pending => v.dirs.pending.value.files
    case Applied => v.dirs.applied.value.files
    case Rollback => v.dirs.rollback.value.files
  }

  function WithFiles(v: View, p: Place, files: map<Name, Content>): View
    requires HasDir(v.dirs, p)
  {
    match p
    case Data => v.(data := files)
    case Pending => v.(dirs := v.dirs.(pending := Some(v.dirs.pending.value.(files := files))))
    case Applied => v.(dirs := v.dirs.(applied := Some(v.dirs.applied.value.(files := files))))
    case Rollback => v.(dirs := v.dirs.(rollback := Some(v.dirs.rollback.value.(files := files))))
  }

  /** Renaming over an existing file replaces it, as the system call does. */
  function MoveFile(v: View, from: Place, to: Place, n: Name): View
    requires from != to && HasDir(v.dirs, from) && HasDir(v.dirs, to)
    requires n in FilesAt(v, from)
  {
    var c := FilesAt(v, from)[n];
    WithFiles(WithFiles(v, from, FilesAt(v, from) - {n}), to, FilesAt(v, to)[n := c])
  }

  function StateAt(d: Dirs, p: Place): Option<StateDir> {
    match p
    case Pending => d.pending
    case Applied => d.applied
    case _ => None
  }

  function WithState(d: Dirs, p: Place, s: Option<StateDir>): Dirs {
    match p
    case Pending => d.(pending := s)
    case Applied => d.(applied := s)
    case _ => d
  }

  class Volume {
    var data: map<Name, Content>
    var restore: Dirs
    var merge: Dirs
    var power: nat

    // The state files before the transaction in progress, and what they are if it commits.
    ghost var pre: map<Name, Content>
    ghost var post: map<Name, Content>

    // Whether its marker has been written out.
    ghost var committed: bool

    constructor (files: map<Name, Content>)
      ensures data == pre == post == files && restore == merge == NO_DIRS
    {
      data, pre, post := files, files, files;
      restore, merge := NO_DIRS, NO_DIRS;
      power := 0;
      committed := false;
    }

    function DirsOf(k: Package): Dirs
      reads this`restore, this`merge
    {
      if k.Restore? then restore else merge
    }

    function ViewOf(k: Package): View
      reads this`data, this`restore, this`merge
    {
      View(data, DirsOf(k))
    }

    function OtherDirs(k: Package): Dirs
      reads this`restore, this`merge
    {
      if k.Restore? then merge else restore
    }

    method Spend() returns (alive: bool)
      modifies this`power
      ensures alive <==> old(power) > 0
      ensures power == if alive then old(power) - 1 else 0
    {
      alive := power > 0;
      if alive {
        power := power - 1;
      }
    }

    method Store(k: Package, v: View)
      modifies this`data, this`restore, this`merge
      ensures ViewOf(k) == v && OtherDirs(k) == old(OtherDirs(k))
    {
      data := v.data;
      if k.Restore? {
        restore := v.dirs;
      } else {
        merge := v.dirs;
      }
    }

    /** One atomic step: the whole change, or none of it and the power is gone. */
    method Step(k: Package, next: View) returns (o: Outcome<()>)
      modifies this`data, this`restore, this`merge, this`power
      ensures if old(power) > 0 then o.Done? && power == old(power) - 1 else o.PowerLoss? && power == 0
      ensures ViewOf(k) == (if o.Done? then next else old(ViewOf(k)))
      ensures OtherDirs(k) == old(OtherDirs(k))
    {
      var alive := Spend();
      if !alive {
        return PowerLoss;
      }
      Store(k, next);
      o := Done(());
    }

    method Rename(k: Package, from: Place, to: Place, n: Name) returns (o: Outcome<()>)
      requires from != to && HasDir(DirsOf(k), from) && HasDir(DirsOf(k), to)
      requires n in FilesAt(ViewOf(k), from)
      modifies this`data, this`restore, this`merge, this`power
      ensures if old(power) > 0 then o.Done? && power == old(power) - 1 else o.PowerLoss? && power == 0
      ensures ViewOf(k) == (if o.Done? then MoveFile(old(ViewOf(k)), from, to, n) else old(ViewOf(k)))
      ensures OtherDirs(k) == old(OtherDirs(k))
    {
      o := Step(k, MoveFile(ViewOf(k), from, to, n));
    }

    /** RemoveAll of a pending or applied directory: entries go one by one, in any order; with
        `stateFileFirst` in one of the orders that begin with the state file. */
    method RemoveState(k: Package, p: Place, stateFileFirst: bool := false) returns (o: Outcome<()>)
      requires p.Pending? || p.Applied?
      requires StateAt(DirsOf(k), p).Some?
      modifies this`data, this`restore, this`merge, this`power
      ensures o.Done? || (o.PowerLoss? && power == 0)
      ensures data == old(data) && OtherDirs(k) == old(OtherDirs(k))
      ensures o.Done? ==> DirsOf(k) == WithState(old(DirsOf(k)), p, None)
      ensures o.PowerLoss? ==>
                && StateAt(DirsOf(k), p).Some? && DirsOf(k) == WithState(old(DirsOf(k)), p, StateAt(DirsOf(k), p))
                && StateAt(DirsOf(k), p).value.files.Keys <= old(StateAt(DirsOf(k), p)).value.files.Keys
                && StateAt(DirsOf(k), p).value.manifest in {None, old(StateAt(DirsOf(k), p)).value.manifest}
      ensures stateFileFirst && old(power) == 1 && old(StateAt(DirsOf(k), p)).value.manifest.Some? ==>
                o.PowerLoss? && StateAt(DirsOf(k), p) == Some(old(StateAt(DirsOf(k), p)).value.(manifest := None))
    {
      var sd := StateAt(DirsOf(k), p).value;
      while sd != StateDir(None, map[])
        invariant StateAt(DirsOf(k), p) == Some(sd)
        invariant data == old(data) && OtherDirs(k) == old(OtherDirs(k))
        invariant DirsOf(k) == WithState(old(DirsOf(k)), p, Some(sd))
        invariant sd.files.Keys <= old(StateAt(DirsOf(k), p)).value.files.Keys
        invariant sd.manifest in {None, old(StateAt(DirsOf(k), p)).value.manifest}
        invariant stateFileFirst && old(power) == 1 && old(StateAt(DirsOf(k), p)).value.manifest.Some? ==>
                    if power == 1 then sd == old(StateAt(DirsOf(k), p)).value
                    else power == 0 && sd == old(StateAt(DirsOf(k), p)).value.(manifest := None)
        decreases |sd.files| + (if sd.manifest.Some? then 1 else 0)
      {
        var next := sd;
        if {
          case sd.manifest.Some? =>
            next := sd.(manifest := None);
          case |sd.files| > 0 && !(stateFileFirst && sd.manifest.Some?) =>
            assert exists n :: n in sd.files.Keys by {
              assert sd.files.Keys != {};
            }
            var n :| n in sd.files.Keys;
            next := sd.(files := sd.files - {n});
            assert next.files.Keys == sd.files.Keys - {n};
        }
        var step := Step(k, View(data, WithState(DirsOf(k), p, Some(next))));
        if step.PowerLoss? {
          return PowerLoss;
        }
        sd := next;
      }
      o := Step(k, View(data, WithState(DirsOf(k), p, None)));
    }

    /** RemoveAll of the rollback directory; the marker may go before, between or after the files. */
    method RemoveRollback(k: Package) returns (o: Outcome<()>)
      requires DirsOf(k).rollback.Some?
      modifies this`data, this`restore, this`merge, this`power
      ensures o.Done? || (o.PowerLoss? && power == 0)
      ensures data == old(data) && OtherDirs(k) == old(OtherDirs(k))
      ensures o.Done? ==> DirsOf(k) == old(DirsOf(k)).(rollback := None)
      ensures o.PowerLoss? ==>
                && DirsOf(k).rollback.Some?
                && DirsOf(k) == old(DirsOf(k)).(rollback := DirsOf(k).rollback)
                && DirsOf(k).rollback.value.files.Keys <= old(DirsOf(k)).rollback.value.files.Keys
                && DirsOf(k).rollback.value.marker in {Missing, old(DirsOf(k)).rollback.value.marker}
    {
      var rb := DirsOf(k).rollback.value;
      while rb != RollbackDir(map[], Missing)
        invariant DirsOf(k) == old(DirsOf(k)).(rollback := Some(rb))
        invariant data == old(data) && OtherDirs(k) == old(OtherDirs(k))
        invariant rb.files.Keys <= old(DirsOf(k)).rollback.value.files.Keys
        invariant rb.marker in {Missing, old(DirsOf(k)).rollback.value.marker}
        decreases |rb.files| + (if rb.marker != Missing then 1 else 0)
      {
        var next := rb;
        if {
          case rb.marker != Missing =>
            next := rb.(marker := Missing);
          case |rb.files| > 0 =>
            assert exists n :: n in rb.files.Keys by {
              assert rb.files.Keys != {};
            }
            var n :| n in rb.files.Keys;
            next := rb.(files := rb.files - {n});
            assert next.files.Keys == rb.files.Keys - {n};
        }
        var step := Step(k, View(data, DirsOf(k).(rollback := Some(next))));
        if step.PowerLoss? {
          return PowerLoss;
        }
        rb := next;
      }
      o := Step(k, View(data, DirsOf(k).(rollback := None)));
    }
  }
}
