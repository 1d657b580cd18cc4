/** The base text of a squad over whole runs of passes, adoptions and releases. */
module AnnounceRuns {
  import opened Wrappers
  import opened AnnounceText
  import opened Announce

  predicate IsTarget(t: Target) {
    (t.message == "" || IsLine(t.message)) && (t.healthy == "" || IsLine(t.healthy))
  }

  function Shown(base: Option<string>, message: string): Current {
    if message == "" && base.None? then Absent else One(Compose(base, message))
  }

  /** The squad's base text is `base`: the panel shows it alone, or with the status the checker
      owns; and an adopted base that stands before it is it. */
  ghost predicate Keeps(v: View, base: Option<string>) {
    && v.headers.Some?
    && (base.Some? ==> IsManagedBase(base.value))
    && (v.adopted.Some? && base.Some? && HasPrefix(base.value, v.adopted.value) ==> v.adopted == base)
    && match v.managed
       case Some(m) => m.base == base && IsLine(m.message) && m.value == Compose(base, m.message) && ReadAnnounce(v.headers.value) == One(m.value)
       case None => v.restored == base && ReadAnnounce(v.headers.value) == Shown(base, "")
  }

  lemma ManagedBaseKeepsPrefix(base: string, adopted: string)
    requires HasPrefix(base, adopted)
    ensures forall tail :: HasPrefix(base + tail, adopted)
  {
    forall tail ensures HasPrefix(base + tail, adopted) {
      assert (base + tail)[..|adopted|] == base[..|adopted|];
    }
  }

  lemma WrittenKeepsBase(v: View, base: Option<string>, t: Target)
    requires v.headers.Some? && IsTarget(t) && (base.Some? ==> IsManagedBase(base.value))
    requires v.adopted.Some? && base.Some? && HasPrefix(base.value, v.adopted.value) ==> v.adopted == base
    ensures Keeps(Written(v, base, t), base)
    ensures ReadAnnounce(Written(v, base, t).headers.value) == Shown(base, t.message)
    ensures Others(Written(v, base, t).headers.value) == Others(v.headers.value)
  {
    WrittenReadsBack(v.headers.value, if t.message == "" then base else Some(Compose(base, t.message)));
  }

  /** A pass that writes nothing, so that no answer can be lost. */
  predicate WritesNothing(v: View, t: Target) {
    if v.managed.Some? then t.message == v.managed.value.message else t.message == ""
  }

  /** One pass keeps the base text and every other header; only a refused write can stop it, and a
      write that succeeds leaves exactly the base with the current message. */
  lemma PassKeepsBase(v: View, base: Option<string>, t: Target, write: Write)
    requires Keeps(v, base) && IsTarget(t) && (write.AnswerLost? ==> WritesNothing(v, t))
    ensures var (w, conflict) := Reconciled(v, t, write);
            && Keeps(w, base) && Others(w.headers.value) == Others(v.headers.value)
            && w.adopted == v.adopted
            && (conflict == None || (conflict == Some(UpdateFailed) && write.Refused?))
            && (conflict == None ==> ReadAnnounce(w.headers.value) == Shown(base, t.message))
            && (conflict == None ==> w.managed.Some? == (t.message != ""))
            && (conflict != None ==> w.managed == v.managed && w.headers == v.headers)
  {
    var c := ReadAnnounce(v.headers.value);
    var u := Vouched(v, c);
    if v.managed.Some? || t.message != "" {
      assert ChosenBase(u, c, t) == Base(base);
      WrittenKeepsBase(u, base, t);
    }
  }

  lemma AdoptKeepsBase(v: View, base: Option<string>, saved: bool)
    requires Keeps(v, base)
    ensures var w := Adopted(v, saved);
            Keeps(w, base) && w.(adopted := v.adopted) == v && (w.adopted == v.adopted || w.adopted == base)
  {
    if v.managed.None? && base.Some? {
      assert Compose(base, "") == base.value;
    }
  }

  datatype Event =
    | Pass(target: Target, write: Write)
    | Adopt(saved: bool)
    | Release(saved: bool)

  ghost function Step(v: View, e: Event): View
    requires v.headers.Some?
    ensures Step(v, e).headers.Some?
  {
    match e
    case Pass(target, write) => Reconciled(v, target, write).0
    case Adopt(saved) => Adopted(v, saved)
    case Release(saved) => if saved then v.(adopted := None) else v
  }

  ghost function After(v: View, run: seq<Event>): View
    requires v.headers.Some?
    ensures After(v, run).headers.Some?
    decreases |run|
  {
    if run == [] then v else After(Step(v, run[0]), run[1..])
  }

  /** No answer to a write is lost on the way. */
  ghost predicate Undisturbed(v: View, run: seq<Event>)
    requires v.headers.Some?
    decreases |run|
  {
    run != [] ==>
      && (run[0].Pass? ==> IsTarget(run[0].target) && (run[0].write.AnswerLost? ==> WritesNothing(v, run[0].target)))
      && Undisturbed(Step(v, run[0]), run[1..])
  }

  /** Over every run without outside edits, once a base is recorded it stays that base, the panel
      shows it alone or with one status, and no other header changes. */
  lemma {:induction false} RunKeepsBase(v: View, base: Option<string>, run: seq<Event>)
    requires Keeps(v, base) && Undisturbed(v, run)
    ensures Keeps(After(v, run), base)
    ensures Others(After(v, run).headers.value) == Others(v.headers.value)
    decreases |run|
  {
    if run == [] {
    } else {
      match run[0] {
        case Pass(target, write) => PassKeepsBase(v, base, target, write);
        case Adopt(saved) => AdoptKeepsBase(v, base, saved);
        case Release(_) =>
      }
      RunKeepsBase(Step(v, run[0]), base, run[1..]);
    }
  }

  /** One pass over all squads keeps the base of every squad that has one. */
  method ReconcileKeepsEveryBase(service: Service, targets: map<Squad, Target>, writes: map<Squad, Write>, ghost bases: map<Squad, Option<string>>)
    requires forall s :: s in targets || s in service.managed ==> s in writes
    requires forall s :: s in writes && writes[s].AnswerLost? ==> WritesNothing(service.Of(s), if s in targets then targets[s] else WITHDRAW)
    requires forall s :: s in targets ==> IsTarget(targets[s])
    requires forall s :: s in bases ==> Keeps(service.Of(s), bases[s])
    modifies service`managed, service`restored, service`panel
    ensures forall s :: s in bases ==>
              && Keeps(service.Of(s), bases[s]) && old(service.Of(s)).headers.Some?
              && Others(service.Of(s).headers.value) == Others(old(service.Of(s)).headers.value)
    ensures forall s :: s in bases && s in targets && writes[s].Applied? ==>
              service.Of(s).headers.Some? && ReadAnnounce(service.Of(s).headers.value) == Shown(bases[s], targets[s].message)
  {
    forall s | s in bases && (s in targets || s in service.managed) {
      PassKeepsBase(service.Of(s), bases[s], if s in targets then targets[s] else WITHDRAW, writes[s]);
    }
    var _ := service.Reconcile(targets, writes);
  }

  /** Whatever happened since the base was recorded, one withdrawal whose write succeeds puts the
      operator's text back byte for byte, or removes the header the checker created. */
  lemma WithdrawalRestoresBase(v: View, base: Option<string>, run: seq<Event>, t: Target)
    requires Keeps(v, base) && Undisturbed(v, run) && IsTarget(t) && t.message == ""
    ensures var (w, conflict) := Reconciled(After(v, run), t, Applied);
            && conflict == None && w.managed == None
            && ReadAnnounce(w.headers.value) == (if base.Some? then One(base.value) else Absent)
            && Others(w.headers.value) == Others(v.headers.value)
  {
    RunKeepsBase(v, base, run);
    PassKeepsBase(After(v, run), base, t, Applied);
  }

  /** Stored values were validated when they were loaded. */
  predicate Loadable(v: View) {
    && (v.adopted.Some? ==> IsManagedBase(v.adopted.value))
    && (v.restored.Some? ==> IsManagedBase(v.restored.value))
  }

  /** The first status of a squad records a base, and from then on RunKeepsBase applies. */
  lemma FirstStatusRecordsABase(v: View, t: Target)
    requires v.headers.Some? && v.managed == None && Loadable(v) && IsTarget(t) && t.message != ""
    requires Reconciled(v, t, Applied).1 == None
    ensures var w := Reconciled(v, t, Applied).0;
            w.managed.Some? && Keeps(w, w.managed.value.base) && Others(w.headers.value) == Others(v.headers.value)
  {
    var c := ReadAnnounce(v.headers.value);
    var u := Vouched(v, c);
    var base := ChosenBase(u, c, t).base;
    if c.One? && base.Some? {
      var (known, split) := Split(c.value, [t.message, t.healthy]);
      if known {
        SplitIsComposed(c.value, [t.message, t.healthy]);
      }
      if u.adopted.Some? && HasPrefix(base.value, u.adopted.value) {
        ManagedBaseKeepsPrefix(base.value, u.adopted.value);
      }
    }
    WrittenKeepsBase(u, base, t);
  }

  lemma {:induction false} SplitIsComposed(value: string, messages: seq<string>)
    requires forall m :: m in messages ==> m == "" || IsLine(m)
    requires Split(value, messages).0
    ensures var base := Split(value, messages).1;
            && (base.Some? ==> IsManagedBase(base.value))
            && exists m :: m in messages && IsLine(m) && value == Compose(base, m)
    decreases |messages|
  {
    var first := SplitOne(value, messages[0]);
    if first.0 {
      SplitOneInvertsCompose(value, messages[0], first.1);
    } else {
      SplitIsComposed(value, messages[1..]);
    }
  }

  /** The operator's text is taken as the base exactly when it is one line the checker can build on
      and is not itself a status line the checker knows. */
  lemma OperatorTextBecomesBase(v: View, t: Target, text: string)
    requires v.headers.Some? && v.managed == None && v.restored == None && v.adopted == None && IsTarget(t) && t.message != ""
    requires ReadAnnounce(v.headers.value) == One(text)
    ensures var (w, conflict) := Reconciled(v, t, Applied);
            (w.managed.Some? && w.managed.value.base == Some(text)) <==>
              IsAppendableBase(text) && text != PREFIX + t.message && text != PREFIX + t.healthy
  {
    var (known, base) := Split(text, [t.message, t.healthy]);
    if known {
      SplitIsComposed(text, [t.message, t.healthy]);
      var m :| m in [t.message, t.healthy] && IsLine(m) && text == Compose(base, m);
      if base.Some? {
        assert text[|base.value|] == '\n';
        assert |base.value| < |text|;
      }
    } else {
      assert SplitOne(text, t.message).0 == false;
      assert Split(text, [t.message, t.healthy]) == Split(text, [t.message, t.healthy][1..]);
      assert [t.message, t.healthy][1..] == [t.healthy];
      assert Split(text, [t.healthy]) == (if SplitOne(text, t.healthy).0 then SplitOne(text, t.healthy) else Split(text, [t.healthy][1..]));
      if t.healthy == "" && text == PREFIX {
        assert !IsAppendableBase(text);
      }
    }
  }

  // ----- when the ownership record is lost -----

  ghost predicate Owns(v: View, base: Option<string>) {
    Keeps(v, base) && v.managed.Some?
  }

  function Forgotten(v: View): View {
    v.(managed := None, restored := None)
  }

  /** Without an adopted base, a lost record is recovered exactly when the old message is still one
      the checker knows. Otherwise a text with a base is left alone, and a status the checker had
      written whole is taken for the operator's text. */
  lemma LostOwnership(v: View, base: Option<string>, t: Target)
    requires Owns(v, base) && v.adopted == None && IsTarget(t) && t.message != ""
    ensures var line := v.managed.value.message;
            var (w, conflict) := Reconciled(Forgotten(v), t, Applied);
            if line == t.message || line == t.healthy then conflict == None && Owns(w, base)
            else if base.Some? || !IsManagedBase(PREFIX + line) then conflict == Some(Unrecognized) && w == Forgotten(v)
            else conflict == None && Owns(w, Some(PREFIX + line))
  {
    var lost := Forgotten(v);
    var message := v.managed.value.message;
    var value := v.managed.value.value;
    var c := ReadAnnounce(lost.headers.value);
    SplitRecoversTheBase(base, message, [t.message, t.healthy]);
    if message == t.message || message == t.healthy {
      assert message in [t.message, t.healthy];
      WrittenKeepsBase(lost, base, t);
    } else {
      assert message !in [t.message, t.healthy];
      if base.Some? {
        assert value[|base.value|] == '\n';
        assert !IsAppendableBase(value);
      } else {
        assert value == PREFIX + message;
        StatusIsOneLine(message);
        if IsManagedBase(value) {
          WrittenKeepsBase(lost, Some(value), t);
        }
      }
    }
  }

  lemma StatusIsOneLine(message: string)
    requires IsLine(message)
    ensures '\n' !in PREFIX + message && '\r' !in PREFIX + message
  {
    assert '\n' !in PREFIX && '\r' !in PREFIX;
  }

  /** An adopted base survives the loss of the ownership record, whatever the messages are. */
  lemma AdoptedBaseSurvivesLoss(v: View, base: string, t: Target)
    requires Owns(v, Some(base)) && v.adopted == Some(base) && IsTarget(t) && t.message != ""
    ensures var (w, conflict) := Reconciled(Forgotten(v), t, Applied);
            conflict == None && Owns(w, Some(base)) && ReadAnnounce(w.headers.value) == One(base + "\n" + t.message)
  {
    var value := v.managed.value.value;
    assert HasPrefix(value, base) by {
      assert value == base + ("\n" + v.managed.value.message);
    }
    assert ChosenBase(Forgotten(v), One(value), t) == Base(Some(base));
    WrittenKeepsBase(Forgotten(v), Some(base), t);
  }

  /** A pass over an owned squad whose answer is lost costs the checker its ownership exactly when the
      message had changed: then the next pass takes its own text for an outside change. Otherwise
      nothing was written, and the next pass goes on as before. */
  lemma LostAnswerLosesOwnership(v: View, base: Option<string>, t: Target, next: Target, write: Write)
    requires Owns(v, base) && IsTarget(t) && IsTarget(next)
    ensures var (w, conflict) := Reconciled(v, t, AnswerLost);
            var (x, conflict') := Reconciled(w, next, write);
            && (conflict' == Some(ChangedOutside) <==> t.message != v.managed.value.message)
            && if t.message != v.managed.value.message then
                 conflict == Some(UpdateFailed) && x.managed == None && ReadAnnounce(x.headers.value) == Shown(base, t.message)
               else
                 && conflict == None && w.headers == v.headers && Owns(w, base)
                 && (conflict' == None || (conflict' == Some(UpdateFailed) && !write.Applied?))
  {
    if t.message == v.managed.value.message {
      PassKeepsBase(v, base, t, AnswerLost);
      NextPassIsNoConflict(Reconciled(v, t, AnswerLost).0, base, next, write);
    } else {
      WrittenKeepsBase(v, base, t);
      if t.message != "" && Compose(base, t.message) == Compose(base, v.managed.value.message) {
        ComposeIsInjective(base, t.message, base, v.managed.value.message);
      }
      if t.message == "" && base.Some? {
        assert |Compose(base, v.managed.value.message)| > |base.value|;
      }
    }
  }

  lemma NextPassIsNoConflict(v: View, base: Option<string>, t: Target, write: Write)
    requires Keeps(v, base) && IsTarget(t)
    ensures var conflict := Reconciled(v, t, write).1; conflict == None || (conflict == Some(UpdateFailed) && !write.Applied?)
  {
    var u := Vouched(v, ReadAnnounce(v.headers.value));
    if v.managed.Some? || t.message != "" {
      assert ChosenBase(u, ReadAnnounce(v.headers.value), t) == Base(base);
    }
  }

  /** The first status of a squad whose answer is lost stands in the panel without an owner. The next
      status finds its base again exactly when the lost message is still one the checker knows. */
  lemma LostFirstAnswer(v: View, base: Option<string>, t: Target, next: Target)
    requires Keeps(v, base) && v.managed == None && v.adopted == None
    requires IsTarget(t) && t.message != "" && IsTarget(next) && next.message != ""
    ensures var (w, conflict) := Reconciled(v, t, AnswerLost);
            var (x, conflict') := Reconciled(w, next, Applied);
            && conflict == Some(UpdateFailed)
            && if t.message == next.message || t.message == next.healthy then conflict' == None && Owns(x, base)
               else if base.Some? || !IsManagedBase(PREFIX + t.message) then conflict' == Some(Unrecognized) && x.headers == w.headers
               else conflict' == None && Owns(x, Some(PREFIX + t.message))
  {
    var u := Vouched(v, ReadAnnounce(v.headers.value));
    assert ChosenBase(u, ReadAnnounce(v.headers.value), t) == Base(base);
    WrittenKeepsBase(u, base, t);
    var w := Reconciled(v, t, AnswerLost).0;
    var owned := Written(u, base, t);
    assert Owns(owned, base) && w.headers == owned.headers;
    LostOwnership(owned, base, next);
    assert Vouched(w, ReadAnnounce(w.headers.value)) == Vouched(Forgotten(owned), ReadAnnounce(w.headers.value)) by {
      if base.Some? {
        assert |Compose(base, t.message)| > |base.value|;
      }
    }
  }
}
