/**
  Ownership of the announce header of one External Squad, and the base text the checker must keep.
  The panel's headers, the ownership records and the adopted bases of a squad form its View; no
  pass touches two squads at once, so a run is a run of views.
*/
module Announce {
  import opened Wrappers
  import opened AnnounceText

  type Squad = string

  /** The locations a status names, each with its public label. */
  datatype Groups = Groups(down: map<string, string>, partial: map<string, string>, maintenance: map<string, string>)

  const NO_GROUPS := Groups(map[], map[], map[])

  datatype Managed = Managed(value: string, message: string, base: Option<string>, groups: Groups)

  datatype Target = Target(message: string, healthy: string, groups: Groups)

  const WITHDRAW := Target("", "", NO_GROUPS)

  datatype Conflict = DuplicateHeaders | ChangedOutside | Unrecognized | SquadGone | UpdateFailed

  /** What became of a write to the panel. */
  datatype Write = Applied | Refused | AnswerLost

  datatype View = View(headers: Option<map<string, string>>, managed: Option<Managed>, restored: Option<string>, adopted: Option<string>)

  // ----- one pass over one squad -----

  datatype Choice = Conflicting | Base(base: Option<string>)

  /** The base a status goes after: the recorded one, the adopted one, the one put back by the last
      withdrawal, what stands before a known status line, or a single line of the operator's. */
  function ChosenBase(v: View, c: Current, t: Target): Choice {
    if v.managed.Some? then Base(v.managed.value.base)
    else if !c.One? then Base(None)
    else if v.adopted.Some? && HasPrefix(c.value, v.adopted.value) then Base(v.adopted)
    else if v.restored == Some(c.value) then Base(v.restored)
    else
      var (known, base) := Split(c.value, [t.message, t.healthy]);
      if known then Base(base) else if IsAppendableBase(c.value) then Base(Some(c.value)) else Conflicting
  }

  /** A remembered restoration vouches only for the text it recorded, and only while the checker
      does not own the squad. */
  function Vouched(v: View, c: Current): View {
    if v.restored.Some? && v.managed.None? && c == One(v.restored.value) then v else v.(restored := None)
  }

  function Written(v: View, base: Option<string>, t: Target): View
    requires v.headers.Some?
  {
    var value := Compose(base, t.message);
    if t.message == "" then
      v.(headers := Some(WithAnnounce(v.headers.value, base)), managed := None, restored := base)
    else
      v.(headers := Some(WithAnnounce(v.headers.value, Some(value))),
         managed := Some(Managed(value, t.message, base, t.groups)), restored := None)
  }

  ghost function Reconciled(v: View, t: Target, write: Write): (View, Option<Conflict>) {
    if v.headers.None? then (v, Some(SquadGone))
    else
      var c := ReadAnnounce(v.headers.value);
      var v := Vouched(v, c);
      if c.Duplicate? then (v.(managed := None), Some(DuplicateHeaders))
      else if v.managed.Some? && c != One(v.managed.value.value) then (v.(managed := None), Some(ChangedOutside))
      else if v.managed.None? && t.message == "" then (v, None)
      else
        var choice := ChosenBase(v, c, t);
        if choice.Conflicting? then (v, Some(Unrecognized))
        else if v.managed.Some? && t.message != "" && c == One(Compose(choice.base, t.message)) then
          (v.(managed := Some(v.managed.value.(message := t.message, groups := t.groups))), None)
        else match write
          case Applied => (Written(v, choice.base, t), None)
          case Refused => (v, Some(UpdateFailed))
          case AnswerLost => (v.(headers := Written(v, choice.base, t).headers), Some(UpdateFailed))
  }

  // ----- the service -----

  class Service {
    var managed: map<Squad, Managed>
    var restored: map<Squad, string>
    var adopted: map<Squad, string>
    var panel: map<Squad, map<string, string>>

    function Of(s: Squad): View
      reads this
    {
      View(if s in panel then Some(panel[s]) else None,
           if s in managed then Some(managed[s]) else None,
           if s in restored then Some(restored[s]) else None,
           if s in adopted then Some(adopted[s]) else None)
    }

    /** UpdateExternalHeaders. */
    method Update(s: Squad, headers: map<string, string>, write: Write) returns (ok: bool)
      modifies this`panel
      ensures panel == if write.Refused? then old(panel) else old(panel)[s := headers]
      ensures ok == write.Applied?
    {
      if !write.Refused? {
        panel := panel[s := headers];
      }
      return write.Applied?;
    }

    method ChooseBase(s: Squad, c: Current, t: Target) returns (choice: Choice)
      ensures choice == ChosenBase(Of(s), c, t)
    {
      if s in managed {
        return Base(managed[s].base);
      }
      if !c.One? {
        return Base(None);
      }
      if s in adopted && HasPrefix(c.value, adopted[s]) {
        return Base(Some(adopted[s]));
      }
      if s in restored && restored[s] == c.value {
        return Base(Some(c.value));
      }
      var known, base := SplitKnown(c.value, [t.message, t.healthy]);
      if known {
        return Base(base);
      }
      if !IsAppendableBase(c.value) {
        return Conflicting;
      }
      return Base(Some(c.value));
    }

    method WriteStatus(s: Squad, base: Option<string>, t: Target, write: Write) returns (conflict: Option<Conflict>)
      requires s in panel
      modifies this`managed, this`restored, this`panel
      ensures Of(s) == if write.Applied? then Written(old(Of(s)), base, t)
                       else if write.Refused? then old(Of(s))
                       else old(Of(s)).(headers := Written(old(Of(s)), base, t).headers)
      ensures conflict == if write.Applied? then None else Some(UpdateFailed)
      ensures forall other :: other != s ==> Of(other) == old(Of(other))
    {
      var headers := WithoutHeader(panel[s]);
      if t.message != "" {
        headers := headers[HEADER := Compose(base, t.message)];
      } else if base.Some? {
        headers := headers[HEADER := base.value];
      }
      var ok := Update(s, headers, write);
      if !ok {
        return Some(UpdateFailed);
      }
      if t.message == "" {
        managed := managed - {s};
        restored := if base.Some? then restored[s := base.value] else restored - {s};
      } else {
        restored := restored - {s};
        managed := managed[s := Managed(Compose(base, t.message), t.message, base, t.groups)];
      }
      return None;
    }

    method ForgetRestored(s: Squad, c: Current)
      modifies this`restored
      ensures Of(s) == Vouched(old(Of(s)), c)
      ensures forall other :: other != s ==> Of(other) == old(Of(other))
    {
      if s in restored && (s in managed || c != One(restored[s])) {
        restored := restored - {s};
      }
    }

    method Disown(s: Squad)
      modifies this`managed
      ensures Of(s) == old(Of(s)).(managed := None)
      ensures forall other :: other != s ==> Of(other) == old(Of(other))
    {
      managed := managed - {s};
    }

    method Publish(s: Squad, c: Current, t: Target, write: Write) returns (conflict: Option<Conflict>)
      requires s in panel && c == ReadAnnounce(panel[s]) && !c.Duplicate? && Vouched(Of(s), c) == Of(s)
      requires (s in managed ==> c == One(managed[s].value)) && (s in managed || t.message != "")
      modifies this`managed, this`restored, this`panel
      ensures (Of(s), conflict) == Reconciled(old(Of(s)), t, write)
      ensures forall other :: other != s ==> Of(other) == old(Of(other))
    {
      var choice := ChooseBase(s, c, t);
      if choice.Conflicting? {
        return Some(Unrecognized);
      }
      if s in managed && t.message != "" && c == One(Compose(choice.base, t.message)) {
        managed := managed[s := managed[s].(message := t.message, groups := t.groups)];
        return None;
      }
      conflict := WriteStatus(s, choice.base, t, write);
    }

    method ReconcileSquad(s: Squad, t: Target, write: Write) returns (conflict: Option<Conflict>)
      modifies this`managed, this`restored, this`panel
      ensures (Of(s), conflict) == Reconciled(old(Of(s)), t, write)
      ensures forall other :: other != s ==> Of(other) == old(Of(other))
    {
      if s !in panel {
        return Some(SquadGone);
      }
      var c := HeaderValue(panel[s]);
      ForgetRestored(s, c);
      if c.Duplicate? {
        Disown(s);
        return Some(DuplicateHeaders);
      }
      if s in managed && c != One(managed[s].value) {
        Disown(s);
        return Some(ChangedOutside);
      }
      if s !in managed && t.message == "" {
        return None;
      }
      conflict := Publish(s, c, t, write);
    }

    static predicate SameConflict(a: map<Squad, Conflict>, b: map<Squad, Conflict>, s: Squad) {
      if s in a then s in b && b[s] == a[s] else s !in b
    }

    /** What one pass makes of a squad. */
    static ghost predicate Follows(s: Squad, was: View, t: Target, write: Write, v: View, conflicts: map<Squad, Conflict>) {
      (v, if s in conflicts then Some(conflicts[s]) else None) == Reconciled(was, t, write)
    }

    /** reconcileLocked: every configured squad gets its target, and every squad that is owned
        without being configured is withdrawn from. */
    method Reconcile(targets: map<Squad, Target>, writes: map<Squad, Write>) returns (conflicts: map<Squad, Conflict>)
      requires forall s :: s in targets || s in managed ==> s in writes
      modifies this`managed, this`restored, this`panel
      ensures forall s :: s in targets || s in old(managed) ==>
                Follows(s, old(Of(s)), if s in targets then targets[s] else WITHDRAW, writes[s], Of(s), conflicts)
      ensures forall s :: s !in targets && s !in old(managed) ==> Of(s) == old(Of(s)) && s !in conflicts
    {
      conflicts := map[];
      var left := managed.Keys + targets.Keys;
      ghost var desired := left;
      while left != {}
        invariant left <= desired
        invariant forall s :: s in desired && s !in left ==> Follows(s, old(Of(s)), if s in targets then targets[s] else WITHDRAW, writes[s], Of(s), conflicts)
        invariant forall s :: s !in desired || s in left ==> Of(s) == old(Of(s)) && s !in conflicts
        decreases left
      {
        var s :| s in left;
        left := left - {s};
        conflicts := ReconcileOne(s, if s in targets then targets[s] else WITHDRAW, writes[s], conflicts);
      }
    }

    method ReconcileOne(s: Squad, t: Target, write: Write, conflicts: map<Squad, Conflict>) returns (more: map<Squad, Conflict>)
      requires s !in conflicts
      modifies this`managed, this`restored, this`panel
      ensures Follows(s, old(Of(s)), t, write, Of(s), more)
      ensures forall other :: other != s ==> Of(other) == old(Of(other)) && SameConflict(conflicts, more, other)
    {
      var conflict := ReconcileSquad(s, t, write);
      more := if conflict.Some? then conflicts[s := conflict.value] else conflicts;
    }

    /** AdoptAnnounceBase. Among announce headers that differ in case only, any may be taken. */
    method Adopt(s: Squad, saved: bool) returns (ok: bool)
      modifies this`adopted
      ensures forall other :: other != s ==> Of(other) == old(Of(other))
      ensures s in panel && !ReadAnnounce(panel[s]).Duplicate? ==>
                Of(s) == Adopted(old(Of(s)), saved) && (ok <==> saved && Adoptable(old(Of(s))).Some?)
      ensures if ok then s in panel && s in adopted && IsManagedBase(adopted[s]) else adopted == old(adopted)
    {
      if s !in panel {
        return false;
      }
      var current := "";
      var names := Announces(panel[s]);
      if names != {} {
        var name :| name in names;
        current := panel[s][name];
      }
      var base := current;
      if s in managed && current == managed[s].value {
        if managed[s].base.None? {
          return false;
        }
        base := managed[s].base.value;
      }
      if !IsManagedBase(base) || !saved {
        return false;
      }
      adopted := adopted[s := base];
      return true;
    }

    method Release(s: Squad, saved: bool)
      modifies this`adopted
      ensures forall other :: other != s ==> Of(other) == old(Of(other))
      ensures Of(s) == if saved then old(Of(s)).(adopted := None) else old(Of(s))
    {
      if saved {
        adopted := adopted - {s};
      }
    }
  }

  /** The operator's text before the checker's own status line, if the checker can build on it. */
  ghost function Adoptable(v: View): Option<string>
    requires v.headers.Some?
  {
    var c := ReadAnnounce(v.headers.value);
    var current := if c.One? then c.value else "";
    var base := if v.managed.Some? && current == v.managed.value.value then v.managed.value.base else Some(current);
    if base.Some? && IsManagedBase(base.value) then base else None
  }

  ghost function Adopted(v: View, saved: bool): View
    requires v.headers.Some?
  {
    if saved && Adoptable(v).Some? then v.(adopted := Adoptable(v)) else v
  }
}
