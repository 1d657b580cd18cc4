/**
  The lists a node merge rebuilds: speed history, availability samples, lineages and the nodes of an
  incident.
*/
module MergeHistory {
  import opened Wrappers
  import opened SortedLists

  type Time = int

  /** The fields of a node record that its results repeat. */
  datatype Tag = Tag(id: string, name: string, subName: string, protocol: string)

  datatype Result = Result(tag: Tag, checkedAt: Time, measured: string)

  /** The JSON text of a result, or None when it has none; different results have different texts. */
  type Encoding = Result -> Option<string>

  ghost predicate Faithful(encode: Encoding) {
    forall a, b :: encode(a).Some? && encode(a) == encode(b) ==> a == b
  }

  /** Newest first, and by text among those checked at one instant. */
  function Newer(encode: Encoding): (Result, Result) -> bool {
    (a: Result, b: Result) =>
      if a.checkedAt == b.checkedAt then encode(a).Some? && encode(b).Some? && Before(encode(a).value, encode(b).value)
      else a.checkedAt > b.checkedAt
  }

  /** The results of this list under the target's label that can be encoded. */
  ghost function Relabelled(entries: seq<Result>, target: Tag, encode: Encoding): set<Result> {
    set i | 0 <= i < |entries| && encode(entries[i].(tag := target)).Some? :: entries[i].(tag := target)
  }

  lemma NewerOrders(encode: Encoding, results: set<Result>)
    requires Faithful(encode) && forall r :: r in results ==> encode(r).Some?
    ensures Orders(Newer(encode), results)
  {
    var less := Newer(encode);
    forall a | a in results ensures !less(a, a) {
      BeforeIsIrreflexive(encode(a).value);
    }
    forall a, b | a in results && b in results && a != b ensures less(a, b) || less(b, a) {
      BeforeIsTotal(encode(a).value, encode(b).value);
    }
    forall a, b, c | a in results && b in results && c in results && less(a, b) && less(b, c) ensures less(a, c) {
      if a.checkedAt == b.checkedAt == c.checkedAt {
        BeforeIsTransitive(encode(a).value, encode(b).value, encode(c).value);
      }
    }
  }

  /** merged is the history of these entries for this target. */
  ghost predicate IsHistory(merged: seq<Result>, entries: seq<Result>, target: Tag, encode: Encoding) {
    Lists(merged, Relabelled(entries, target, encode), Newer(encode))
  }

  /** mergeHistory: relabel, drop what was seen, sort. */
  method MergeHistory(first: seq<Result>, second: seq<Result>, target: Tag, encode: Encoding) returns (merged: seq<Result>)
    requires Faithful(encode)
    ensures IsHistory(merged, first + second, target, encode)
  {
    var entries := first + second;
    var seen: set<string> := {};
    merged := [];
    for i := 0 to |entries|
      invariant Lists(merged, Relabelled(entries[..i], target, encode), Newer(encode))
      invariant forall r :: r in Elements(merged) ==> encode(r).Some?
      invariant forall text :: text in seen <==> exists r :: r in Elements(merged) && encode(r) == Some(text)
    {
      var entry := entries[i].(tag := target);
      OneMoreEntry(entries, i, target, encode);
      var text := encode(entry);
      if text.Some? {
        if text.value in seen {
          assert entry in Elements(merged);
          assert Elements(merged) + {entry} == Elements(merged);
        } else {
          NewerOrders(encode, Elements(merged) + {entry});
          merged := Insert(merged, entry, Newer(encode));
          seen := seen + {text.value};
        }
      }
    }
    assert entries[..|entries|] == entries;
  }

  lemma OneMoreEntry(entries: seq<Result>, i: nat, target: Tag, encode: Encoding)
    requires i < |entries|
    ensures Relabelled(entries[..i + 1], target, encode) ==
            Relabelled(entries[..i], target, encode) + if encode(entries[i].(tag := target)).Some? then {entries[i].(tag := target)} else {}
  {
    var more := entries[..i + 1];
    assert more[i] == entries[i];
    forall k | 0 <= k < i ensures more[k] == entries[..i][k] {
    }
  }

  lemma RelabelledParts(a: seq<Result>, b: seq<Result>, target: Tag, encode: Encoding)
    ensures Relabelled(a + b, target, encode) == Relabelled(a, target, encode) + Relabelled(b, target, encode)
  {
    var both := a + b;
    forall i | 0 <= i < |a| ensures both[i] == a[i] {
    }
    forall i | 0 <= i < |b| ensures both[|a| + i] == b[i] {
    }
    forall r | r in Relabelled(a, target, encode) + Relabelled(b, target, encode) ensures r in Relabelled(both, target, encode) {
      if r in Relabelled(a, target, encode) {
        var i :| 0 <= i < |a| && encode(a[i].(tag := target)).Some? && a[i].(tag := target) == r;
        assert both[i].(tag := target) == r;
      } else {
        var i :| 0 <= i < |b| && encode(b[i].(tag := target)).Some? && b[i].(tag := target) == r;
        assert both[|a| + i].(tag := target) == r;
      }
    }
  }

  /** A merged history has the target's label already, so merging it again adds nothing new. */
  lemma RelabelledAgain(merged: seq<Result>, entries: seq<Result>, target: Tag, encode: Encoding)
    requires IsHistory(merged, entries, target, encode)
    ensures Relabelled(merged, target, encode) == Relabelled(entries, target, encode)
  {
    forall r | r in Relabelled(entries, target, encode) ensures r in Relabelled(merged, target, encode) {
      assert r in Elements(merged);
      var i :| 0 <= i < |merged| && merged[i] == r;
      assert merged[i].(tag := target) == r;
    }
    forall i | 0 <= i < |merged| ensures merged[i] in Relabelled(entries, target, encode) && merged[i].(tag := target) == merged[i] {
      assert merged[i] in Elements(merged);
    }
  }

  /** There is one history for one set of results, whatever list they come in. */
  lemma HistoryIsUnique(r: seq<Result>, a: seq<Result>, q: seq<Result>, b: seq<Result>, target: Tag, encode: Encoding)
    requires Faithful(encode) && IsHistory(r, a, target, encode) && IsHistory(q, b, target, encode)
    requires Relabelled(a, target, encode) == Relabelled(b, target, encode)
    ensures r == q
  {
    NewerOrders(encode, Relabelled(a, target, encode));
    OnlyOneList(r, q, Newer(encode));
  }

  /** For a fixed target merging is commutative, associative and idempotent. */
  lemma MergingHistoriesIsASetUnion(a: seq<Result>, b: seq<Result>, c: seq<Result>, target: Tag, encode: Encoding,
                                    ab: seq<Result>, ba: seq<Result>, bc: seq<Result>, ab_c: seq<Result>, a_bc: seq<Result>, aa: seq<Result>)
    requires Faithful(encode)
    requires IsHistory(ab, a + b, target, encode) && IsHistory(ba, b + a, target, encode) && IsHistory(bc, b + c, target, encode)
    requires IsHistory(ab_c, ab + c, target, encode) && IsHistory(a_bc, a + bc, target, encode) && IsHistory(aa, ab + ab, target, encode)
    ensures ab == ba && ab_c == a_bc && aa == ab
    ensures forall i, j :: 0 <= i < j < |ab| ==> ab[i] != ab[j] && ab[i].checkedAt >= ab[j].checkedAt
  {
    RelabelledParts(a, b, target, encode);
    RelabelledParts(b, a, target, encode);
    RelabelledParts(b, c, target, encode);
    RelabelledParts(ab, c, target, encode);
    RelabelledParts(a, bc, target, encode);
    RelabelledParts(ab, ab, target, encode);
    RelabelledAgain(ab, a + b, target, encode);
    RelabelledAgain(bc, b + c, target, encode);
    HistoryIsUnique(ab, a + b, ba, b + a, target, encode);
    HistoryIsUnique(ab_c, ab + c, a_bc, a + bc, target, encode);
    HistoryIsUnique(aa, ab + ab, ab, a + b, target, encode);
    NewerOrders(encode, Elements(ab));
    AscendingIsDistinct(ab, Newer(encode));
  }

  // ----- availability -----

  /** checkedAt is 0 for the zero time. */
  datatype Sample = Sample(checkedAt: Time, state: string)

  /** The first sample of the list taken at this time. */
  function SampleAt(samples: seq<Sample>, at: Time): Option<Sample> {
    if samples == [] then None
    else if samples[0].checkedAt == at then Some(samples[0])
    else SampleAt(samples[1..], at)
  }

  ghost predicate NewestFirst(samples: seq<Sample>) {
    forall i, j :: 0 <= i < j < |samples| ==> samples[i].checkedAt > samples[j].checkedAt
  }

  /** merged holds, newest first, the first sample of each time that is not the zero time. */
  ghost predicate IsSamples(merged: seq<Sample>, samples: seq<Sample>) {
    NewestFirst(merged) && forall at :: SampleAt(merged, at) == if at == 0 then None else SampleAt(samples, at)
  }

  /** mergeAvailabilityHistory: one sample for each time, the target's before the source's. */
  method MergeAvailability(first: seq<Sample>, second: seq<Sample>) returns (merged: seq<Sample>)
    ensures IsSamples(merged, first + second)
  {
    var entries := first + second;
    var seen: set<Time> := {};
    merged := [];
    for i := 0 to |entries|
      invariant NewestFirst(merged)
      invariant forall at :: SampleAt(merged, at) == if at == 0 then None else SampleAt(entries[..i], at)
      invariant forall at :: at in seen <==> SampleAt(merged, at).Some?
    {
      var sample := entries[i];
      assert entries[..i + 1] == entries[..i] + [sample];
      forall at
        ensures SampleAt(entries[..i + 1], at) == if SampleAt(entries[..i], at).Some? then SampleAt(entries[..i], at)
                                                  else if at == sample.checkedAt then Some(sample) else None
      {
        SampleAtAppend(entries[..i], [sample], at);
        assert [sample][1..] == [];
      }
      if sample.checkedAt != 0 && sample.checkedAt !in seen {
        seen := seen + {sample.checkedAt};
        merged := InsertSample(merged, sample);
      }
    }
    assert entries[..|entries|] == entries;
  }

  lemma {:induction false} SampleAtAppend(a: seq<Sample>, b: seq<Sample>, at: Time)
    ensures SampleAt(a + b, at) == if SampleAt(a, at).Some? then SampleAt(a, at) else SampleAt(b, at)
  {
    if a == [] {
      assert a + b == b;
    } else {
      assert (a + b)[1..] == a[1..] + b;
      SampleAtAppend(a[1..], b, at);
    }
  }

  lemma {:induction false} SampleAtSkips(a: seq<Sample>, at: Time)
    requires forall k :: 0 <= k < |a| ==> a[k].checkedAt != at
    ensures SampleAt(a, at) == None
  {
    if a != [] {
      SampleAtSkips(a[1..], at);
    }
  }

  method InsertSample(s: seq<Sample>, x: Sample) returns (r: seq<Sample>)
    requires NewestFirst(s) && SampleAt(s, x.checkedAt).None?
    ensures NewestFirst(r)
    ensures forall at :: SampleAt(r, at) == if at == x.checkedAt then Some(x) else SampleAt(s, at)
  {
    var i := 0;
    while i < |s| && s[i].checkedAt > x.checkedAt
      invariant 0 <= i <= |s|
      invariant forall j :: 0 <= j < i ==> s[j].checkedAt > x.checkedAt
    {
      i := i + 1;
    }
    NoneSkips(s, x.checkedAt);
    NewestInserted(s, x, i);
    forall at ensures SampleAt(s[..i] + [x] + s[i..], at) == if at == x.checkedAt then Some(x) else SampleAt(s, at) {
      SampleInserted(s, x, i, at);
    }
    return s[..i] + [x] + s[i..];
  }

  lemma {:induction false} NoneSkips(s: seq<Sample>, at: Time)
    requires SampleAt(s, at).None?
    ensures forall k :: 0 <= k < |s| ==> s[k].checkedAt != at
  {
    if s != [] {
      NoneSkips(s[1..], at);
      forall k | 0 <= k < |s| ensures s[k].checkedAt != at {
        assert k > 0 ==> s[k] == s[1..][k - 1];
      }
    }
  }

  lemma NewestInserted(s: seq<Sample>, x: Sample, i: nat)
    requires NewestFirst(s) && i <= |s| && (forall k :: 0 <= k < |s| ==> s[k].checkedAt != x.checkedAt)
    requires (forall j :: 0 <= j < i ==> s[j].checkedAt > x.checkedAt) && (i < |s| ==> s[i].checkedAt <= x.checkedAt)
    ensures NewestFirst(s[..i] + [x] + s[i..])
  {
    Inserted(s, x, i);
  }

  lemma SampleInserted(s: seq<Sample>, x: Sample, i: nat, at: Time)
    requires i <= |s| && forall k :: 0 <= k < |s| ==> s[k].checkedAt != x.checkedAt
    ensures SampleAt(s[..i] + [x] + s[i..], at) == if at == x.checkedAt then Some(x) else SampleAt(s, at)
  {
    assert s[..i] + [x] + s[i..] == s[..i] + ([x] + s[i..]);
    assert s == s[..i] + s[i..];
    assert ([x] + s[i..])[1..] == s[i..];
    SampleAtAppend(s[..i], [x] + s[i..], at);
    SampleAtAppend(s[..i], s[i..], at);
    SampleAtSkips(s[..i], x.checkedAt);
  }

  /** The samples are determined by their times, so merging again changes nothing. */
  lemma {:induction false} SamplesAreDetermined(a: seq<Sample>, b: seq<Sample>)
    requires NewestFirst(a) && NewestFirst(b) && forall at :: SampleAt(a, at) == SampleAt(b, at)
    ensures a == b
    decreases |a|
  {
    if b != [] {
      assert SampleAt(a, b[0].checkedAt) == SampleAt(b, b[0].checkedAt);
    }
    if a == [] {
    } else {
      assert SampleAt(b, a[0].checkedAt) == Some(a[0]);
      assert b != [];
      assert SampleAt(a, b[0].checkedAt) == Some(b[0]);
      SampleIsIn(a, b[0].checkedAt);
      SampleIsIn(b, a[0].checkedAt);
      assert a[0] == b[0];
      SampleAtSkips(a[1..], a[0].checkedAt);
      SampleAtSkips(b[1..], a[0].checkedAt);
      forall at ensures SampleAt(a[1..], at) == SampleAt(b[1..], at) {
        assert SampleAt(a, at) == SampleAt(b, at);
      }
      SamplesAreDetermined(a[1..], b[1..]);
      assert a == [a[0]] + a[1..] && b == [b[0]] + b[1..];
    }
  }

  /** Merging samples is associative, merging twice changes nothing, and at a shared time the first
      list's sample stays. */
  lemma MergingSamples(a: seq<Sample>, b: seq<Sample>, c: seq<Sample>,
                       ab: seq<Sample>, bc: seq<Sample>, ab_c: seq<Sample>, a_bc: seq<Sample>, abb: seq<Sample>)
    requires IsSamples(ab, a + b) && IsSamples(bc, b + c) && IsSamples(ab_c, ab + c) && IsSamples(a_bc, a + bc) && IsSamples(abb, ab + b)
    ensures ab_c == a_bc && abb == ab
    ensures forall at :: at != 0 && SampleAt(a, at).Some? ==> SampleAt(ab, at) == SampleAt(a, at)
  {
    forall at
      ensures SampleAt(ab_c, at) == SampleAt(a_bc, at) && SampleAt(abb, at) == SampleAt(ab, at)
      ensures at != 0 && SampleAt(a, at).Some? ==> SampleAt(ab, at) == SampleAt(a, at)
    {
      SampleAtAppend(a, b, at);
      SampleAtAppend(b, c, at);
      SampleAtAppend(ab, c, at);
      SampleAtAppend(a, bc, at);
      SampleAtAppend(ab, b, at);
    }
    SamplesAreDetermined(ab_c, a_bc);
    SamplesAreDetermined(abb, ab);
  }

  lemma {:induction false} SampleIsIn(a: seq<Sample>, at: Time)
    requires SampleAt(a, at).Some?
    ensures exists i :: 0 <= i < |a| && a[i] == SampleAt(a, at).value && a[i].checkedAt == at
  {
    if a[0].checkedAt != at {
      SampleIsIn(a[1..], at);
      var i :| 0 <= i < |a[1..]| && a[1..][i] == SampleAt(a[1..], at).value && a[1..][i].checkedAt == at;
      assert a[i + 1] == a[1..][i];
    }
  }

  // ----- lineage -----

  /** uniqueSorted, of trimmed values. */
  method UniqueSorted(values: seq<string>, excluded: string) returns (r: seq<string>)
    ensures Lists(r, Elements(values) - {"", excluded}, Before)
  {
    var seen: set<string> := {};
    for i := 0 to |values|
      invariant seen == Elements(values[..i]) - {"", excluded}
    {
      var value := values[i];
      assert values[..i + 1] == values[..i] + [value];
      if value != "" && value != excluded {
        seen := seen + {value};
      }
    }
    assert values[..|values|] == values;
    r := SortStrings(seen);
  }
}
