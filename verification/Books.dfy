/**
  The automation coordinator's books: which session each node's probe is, what was journaled, and
  when speed probes started. Everything here is about values; the coordinator keeps these
  invariants step by step.
*/
module Books {
  import opened Wrappers
  import opened SessionSpec
  import opened Controller

  type Node = string

  /** session is "" when no session was started. */
  datatype Handle = Handle(session: string, startedAt: Time, detail: string)

  datatype Kind = ProxyFailure | Offline

  /** The probe that answers for one node's failure; final is the verdict of one that answered. */
  datatype Entry = Entry(kind: Kind, since: Time, handle: Handle, final: Option<string>, journaled: bool)

  datatype Record = Record(node: Node, session: string, kind: Kind, since: Time, verdict: string)

  /** A speed probe that was started. */
  datatype Start = Start(node: Node, at: Time, session: string)

  datatype Books = Books(entries: map<Node, Handle>, availability: map<Node, Entry>, created: set<string>, journal: seq<Record>)

  function SpeedIds(entries: map<Node, Handle>): set<string> {
    set n | n in entries :: entries[n].session
  }

  function AvailabilityIds(availability: map<Node, Entry>): set<string> {
    set n | n in availability :: availability[n].handle.session
  }

  function Held(b: Books): set<string> {
    SpeedIds(b.entries) + AvailabilityIds(b.availability)
  }

  /** The sessions among these that an agent may still be working on. */
  function Live(ids: set<string>, sessions: map<string, Session>): set<string> {
    set id | id in ids && IsInFlight(sessions, id)
  }

  /** No session in flight is forgotten, and there are never more than allowed. */
  ghost predicate HeldInv(b: Books, sessions: map<string, Session>, max: nat) {
    && Live(b.created, sessions) <= Held(b) <= b.created + {""}
    && |Live(b.created, sessions)| <= max
    && "" !in b.created
    && OwnSessions(b)
  }

  predicate Apart(a: Handle, b: Handle) {
    a.session == "" || a.session != b.session
  }

  /** Every speed entry has a session, and no two entries share one. */
  ghost predicate OwnSessions(b: Books) {
    && "" !in SpeedIds(b.entries) && SpeedIds(b.entries) !! AvailabilityIds(b.availability)
    && (forall n, m {:trigger Apart(b.entries[n], b.entries[m])} :: n in b.entries && m in b.entries && n != m ==> Apart(b.entries[n], b.entries[m]))
    && (forall n, m {:trigger Apart(b.availability[n].handle, b.availability[m].handle)} ::
          n in b.availability && m in b.availability && n != m ==> Apart(b.availability[n].handle, b.availability[m].handle))
  }

  /** No agent is working on this session for the coordinator. */
  predicate Free(sessions: map<string, Session>, id: string) {
    id == "" || !IsInFlight(sessions, id)
  }

  function JournaledIds(journal: seq<Record>): set<string> {
    set i | 0 <= i < |journal| && journal[i].session != "" :: journal[i].session
  }

  predicate Differ(r: Record, q: Record) {
    r.session == "" || r.session != q.session
  }

  /** No session is journaled twice, and the journaled flags are right. */
  ghost predicate JournalInv(b: Books) {
    && (forall n :: n in b.availability && !b.availability[n].journaled ==> b.availability[n].handle.session !in JournaledIds(b.journal))
    && (forall i, j {:trigger Differ(b.journal[i], b.journal[j])} :: 0 <= i < j < |b.journal| ==> Differ(b.journal[i], b.journal[j]))
    && JournaledIds(b.journal) <= b.created
  }

  /** A kept verdict is that of a session that answered. */
  ghost predicate FinalInv(b: Books, sessions: map<string, Session>) {
    forall n :: n in b.availability && b.availability[n].final.Some? ==>
      var id := b.availability[n].handle.session;
      id != "" && (id in sessions ==> sessions[id].observations != [])
  }

  ghost predicate BooksInv(b: Books, sessions: map<string, Session>, max: nat) {
    HeldInv(b, sessions, max) && JournalInv(b) && FinalInv(b, sessions)
  }

  lemma Fewer(a: set<string>, b: set<string>)
    requires a <= b
    ensures |a| <= |b|
  {
    assert b == a + (b - a);
  }

  /** Whatever the controller, the agents and the operators do, the books stay right. */
  lemma EvolutionKeepsBooks(b: Books, before: map<string, Session>, issued: set<string>, after: map<string, Session>, max: nat)
    requires BooksInv(b, before, max) && b.created <= issued && Evolved(before, issued, after)
    ensures BooksInv(b, after, max) && Live(b.created, after) <= Live(b.created, before)
  {
    Fewer(Live(b.created, after), Live(b.created, before));
    assert Held(b) <= b.created + {""};
    forall n | n in b.availability && b.availability[n].final.Some?
      ensures var id := b.availability[n].handle.session; id != "" && (id in after ==> after[id].observations != [])
    {
      assert b.availability[n].handle.session in AvailabilityIds(b.availability);
    }
  }

  lemma DropSpeedKeepsBooks(b: Books, sessions: map<string, Session>, max: nat, n: Node)
    requires BooksInv(b, sessions, max) && n in b.entries && Free(sessions, b.entries[n].session)
    ensures BooksInv(b.(entries := b.entries - {n}), sessions, max)
  {
    var b' := b.(entries := b.entries - {n});
    forall id | id in Live(b.created, sessions) ensures id in Held(b') {
      if id in SpeedIds(b.entries) {
        var m :| m in b.entries && b.entries[m].session == id;
        assert b'.entries[m].session == id;
      }
    }
    forall id | id in Held(b') ensures id in Held(b) {
      if m :| m in b'.entries && b'.entries[m].session == id {
        assert b.entries[m].session == id;
      }
    }
  }

  lemma DropAvailabilityKeepsBooks(b: Books, sessions: map<string, Session>, max: nat, n: Node)
    requires BooksInv(b, sessions, max) && n in b.availability && Free(sessions, b.availability[n].handle.session)
    ensures BooksInv(b.(availability := b.availability - {n}), sessions, max)
  {
    var b' := b.(availability := b.availability - {n});
    forall id | id in Live(b.created, sessions) ensures id in Held(b') {
      if id in AvailabilityIds(b.availability) {
        var m :| m in b.availability && b.availability[m].handle.session == id;
        assert b'.availability[m].handle.session == id;
      }
    }
    forall id | id in Held(b') ensures id in Held(b) {
      if m :| m in b'.availability && b'.availability[m].handle.session == id {
        assert b.availability[m].handle.session == id;
      }
    }
  }

  lemma HeldWithOneMore(b: Books, sessions: map<string, Session>, max: nat, b': Books, id: string)
    requires HeldInv(b, sessions, max) && |Live(b.created, sessions)| < max
    requires id != "" && Held(b') == Held(b) + {id} && b'.created == b.created + {id} && OwnSessions(b')
    ensures HeldInv(b', sessions, max)
  {
    OneMoreLive(b, sessions, id);
  }

  lemma AddSpeedKeepsBooks(b: Books, sessions: map<string, Session>, max: nat, n: Node, h: Handle)
    requires BooksInv(b, sessions, max) && n !in b.entries
    requires h.session != "" && h.session !in b.created && |Live(b.created, sessions)| < max
    ensures BooksInv(b.(entries := b.entries[n := h], created := b.created + {h.session}), sessions, max)
  {
    var b' := b.(entries := b.entries[n := h], created := b.created + {h.session});
    assert SpeedIds(b'.entries) == SpeedIds(b.entries) + {h.session} by {
      AddedSpeedIds(b.entries, n, h);
    }
    OwnSpeed(b, n, h);
    HeldWithOneMore(b, sessions, max, b', h.session);
    assert JournalInv(b') && FinalInv(b', sessions);
  }

  lemma OwnSpeed(b: Books, n: Node, h: Handle)
    requires OwnSessions(b) && n !in b.entries && h.session != "" && h.session !in Held(b)
    ensures OwnSessions(b.(entries := b.entries[n := h]))
  {
    AddedSpeedIds(b.entries, n, h);
    forall m | m in b.entries ensures b.entries[m].session != h.session {
      assert b.entries[m].session in SpeedIds(b.entries);
    }
  }

  lemma OwnAvailability(b: Books, n: Node, e: Entry)
    requires OwnSessions(b) && n !in b.availability && (e.handle.session == "" || e.handle.session !in Held(b))
    ensures OwnSessions(b.(availability := b.availability[n := e]))
  {
    AddedIds(b.availability, n, e);
    forall m | m in b.availability ensures b.availability[m].handle.session == "" || b.availability[m].handle.session != e.handle.session {
      assert b.availability[m].handle.session in AvailabilityIds(b.availability);
    }
  }

  lemma AddedSpeedIds(entries: map<Node, Handle>, n: Node, h: Handle)
    requires n !in entries
    ensures SpeedIds(entries[n := h]) == SpeedIds(entries) + {h.session}
  {
    var more := entries[n := h];
    forall id | id in SpeedIds(entries) ensures id in SpeedIds(more) {
      var m :| m in entries && entries[m].session == id;
      assert more[m].session == id;
    }
    assert more[n].session == h.session;
  }

  lemma OneMoreLive(b: Books, sessions: map<string, Session>, id: string)
    ensures Live(b.created + {id}, sessions) <= Live(b.created, sessions) + {id}
    ensures |Live(b.created + {id}, sessions)| <= |Live(b.created, sessions)| + 1
  {
    Fewer(Live(b.created + {id}, sessions), Live(b.created, sessions) + {id});
  }

  /** An availability entry may be replaced when its session is not in flight. */
  predicate Replaceable(b: Books, sessions: map<string, Session>, n: Node) {
    n in b.availability ==> Free(sessions, b.availability[n].handle.session)
  }

  lemma RefuseAvailabilityKeepsBooks(b: Books, sessions: map<string, Session>, max: nat, n: Node, e: Entry)
    requires BooksInv(b, sessions, max) && Replaceable(b, sessions, n)
    requires e.handle.session == "" && e.final.None? && !e.journaled
    ensures BooksInv(b.(availability := b.availability[n := e]), sessions, max)
  {
    var without := b.(availability := b.availability - {n});
    if n in b.availability {
      DropAvailabilityKeepsBooks(b, sessions, max, n);
    } else {
      assert without == b;
    }
    assert b.availability[n := e] == without.availability[n := e];
    AddedIds(without.availability, n, e);
    OwnAvailability(without, n, e);
  }

  lemma AddedIds(availability: map<Node, Entry>, n: Node, e: Entry)
    requires n !in availability
    ensures AvailabilityIds(availability[n := e]) == AvailabilityIds(availability) + {e.handle.session}
  {
    var more := availability[n := e];
    forall id | id in AvailabilityIds(availability) ensures id in AvailabilityIds(more) {
      var m :| m in availability && availability[m].handle.session == id;
      assert more[m].handle.session == id;
    }
    assert more[n].handle.session == e.handle.session;
  }

  lemma AddAvailabilityKeepsBooks(b: Books, sessions: map<string, Session>, max: nat, n: Node, e: Entry)
    requires BooksInv(b, sessions, max) && Replaceable(b, sessions, n)
    requires e.handle.session != "" && e.handle.session !in b.created && e.final.None? && !e.journaled
    requires |Live(b.created, sessions)| < max
    ensures BooksInv(b.(availability := b.availability[n := e], created := b.created + {e.handle.session}), sessions, max)
  {
    if n in b.availability {
      DropAvailabilityKeepsBooks(b, sessions, max, n);
      InsertAvailabilityKeepsBooks(b.(availability := b.availability - {n}), sessions, max, n, e);
      assert (b.availability - {n})[n := e] == b.availability[n := e];
    } else {
      InsertAvailabilityKeepsBooks(b, sessions, max, n, e);
    }
  }

  lemma InsertAvailabilityKeepsBooks(b: Books, sessions: map<string, Session>, max: nat, n: Node, e: Entry)
    requires BooksInv(b, sessions, max) && n !in b.availability
    requires e.handle.session != "" && e.handle.session !in b.created && e.final.None? && !e.journaled
    requires |Live(b.created, sessions)| < max
    ensures BooksInv(b.(availability := b.availability[n := e], created := b.created + {e.handle.session}), sessions, max)
  {
    var b' := b.(availability := b.availability[n := e], created := b.created + {e.handle.session});
    AddedIds(b.availability, n, e);
    OwnAvailability(b, n, e);
    HeldWithOneMore(b, sessions, max, b', e.handle.session);
    forall m | m in b.availability ensures b.availability[m].handle.session != e.handle.session {
      assert b.availability[m].handle.session in AvailabilityIds(b.availability);
      assert b.availability[m].handle.session in Held(b);
    }
    assert JournalInv(b');
    assert FinalInv(b', sessions);
  }

  /** Writing an entry's verdict down: the entry keeps its session, and is journaled once. */
  lemma SettleKeepsBooks(b: Books, sessions: map<string, Session>, max: nat, n: Node, e: Entry, record: Record)
    requires BooksInv(b, sessions, max) && n in b.availability && !b.availability[n].journaled
    requires e == b.availability[n].(final := e.final, journaled := true) && record.session == e.handle.session != ""
    requires e.final.Some? ==> e.handle.session in sessions ==> sessions[e.handle.session].observations != []
    ensures BooksInv(b.(availability := b.availability[n := e], journal := b.journal + [record]), sessions, max)
  {
    var b' := b.(availability := b.availability[n := e], journal := b.journal + [record]);
    SameIds(b.availability, n, e);
    assert record.session in Held(b);
    JournaledOneMore(b.journal, record);
    forall i | 0 <= i < |b.journal| ensures Differ(b.journal[i], record) {
      assert b.journal[i].session != "" ==> b.journal[i].session in JournaledIds(b.journal);
    }
    forall m | m in b.availability && m != n ensures b.availability[m].handle.session != record.session {
      assert Apart(b.availability[n].handle, b.availability[m].handle);
    }
    forall i, j | 0 <= i < j < |b'.journal| ensures Differ(b'.journal[i], b'.journal[j]) {
      assert j < |b.journal| ==> Differ(b.journal[i], b.journal[j]);
    }
    forall k, m | k in b'.availability && m in b'.availability && k != m ensures Apart(b'.availability[k].handle, b'.availability[m].handle) {
      assert Apart(b.availability[k].handle, b.availability[m].handle);
    }
  }

  lemma SameIds(availability: map<Node, Entry>, n: Node, e: Entry)
    requires n in availability && availability[n].handle.session == e.handle.session
    ensures AvailabilityIds(availability[n := e]) == AvailabilityIds(availability)
  {
    var more := availability[n := e];
    forall id | id in AvailabilityIds(availability) ensures id in AvailabilityIds(more) {
      var m :| m in availability && availability[m].handle.session == id;
      assert more[m].handle.session == id;
    }
    forall id | id in AvailabilityIds(more) ensures id in AvailabilityIds(availability) {
      var m :| m in more && more[m].handle.session == id;
      assert availability[m].handle.session == id;
    }
  }

  lemma JournaledOneMore(journal: seq<Record>, record: Record)
    ensures JournaledIds(journal + [record]) == JournaledIds(journal) + if record.session == "" then {} else {record.session}
  {
    var more := journal + [record];
    assert more[|journal|] == record;
    forall i | 0 <= i < |journal| ensures more[i] == journal[i] {
    }
  }

  /** A verdict read before it was journaled is only remembered. */
  lemma RememberKeepsBooks(b: Books, sessions: map<string, Session>, max: nat, n: Node, e: Entry)
    requires BooksInv(b, sessions, max) && n in b.availability && b.availability[n].journaled
    requires e == b.availability[n].(final := e.final) && e.handle.session != ""
    requires e.handle.session in sessions ==> sessions[e.handle.session].observations != []
    ensures BooksInv(b.(availability := b.availability[n := e]), sessions, max)
  {
    SameIds(b.availability, n, e);
  }

  /** An episode nobody could look at is journaled without a session. */
  lemma NobodyLookedKeepsBooks(b: Books, sessions: map<string, Session>, max: nat, record: Record)
    requires BooksInv(b, sessions, max) && record.session == ""
    ensures BooksInv(b.(journal := b.journal + [record]), sessions, max)
  {
    JournaledOneMore(b.journal, record);
  }

  // ----- the cooldown of speed probes -----

  /** Every speed probe that was started still has its entry, was abandoned without an observation,
      or started a cooldown ago. */
  ghost predicate CooldownInv(entries: map<Node, Handle>, starts: seq<Start>, abandoned: set<string>, clock: Time, cooldown: Time) {
    && (forall i :: 0 <= i < |starts| ==>
          || (starts[i].node in entries && entries[starts[i].node].session == starts[i].session && entries[starts[i].node].startedAt == starts[i].at)
          || starts[i].session in abandoned
          || clock - starts[i].at >= cooldown)
    && (forall i, j :: 0 <= i < j < |starts| && starts[i].node == starts[j].node ==>
          starts[i].session in abandoned || starts[j].at - starts[i].at >= cooldown)
  }
}
