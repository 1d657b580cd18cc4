/** How often one agent said the same about one node: the history behind a cell's streak. */
module Streaks {
  import opened Verdicts

  /** One record: the verdict, the local sample it was compared with, and when it was made. */
  datatype Sample = Sample(verdict: Verdict, local: Time, at: Time)

  /** All records from index i on have the last one's verdict. */
  predicate SameVerdictFrom(h: seq<Sample>, i: nat) {
    i < |h| && forall k :: i <= k < |h| ==> h[k].verdict == h[|h| - 1].verdict
  }

  /** Where the present run of equal verdicts began. */
  predicate RunStartsAt(h: seq<Sample>, i: nat) {
    SameVerdictFrom(h, i) && (i > 0 ==> h[i - 1].verdict != h[i].verdict)
  }

  /** How many records from index i on have a later local sample than the record before them. */
  function Advances(h: seq<Sample>, i: nat): nat {
    if |h| <= i + 1 then 0
    else Advances(h[..|h| - 1], i) + if h[|h| - 1].local > h[|h| - 2].local then 1 else 0
  }

  /** The streak of a history: one plus the strict advances of the local sample in the present run. */
  ghost predicate HasStreak(h: seq<Sample>, streak: nat, since: Time) {
    exists i: nat :: RunStartsAt(h, i) && streak == 1 + Advances(h, i) && since == h[i].at
  }

  lemma FirstRecord(h: seq<Sample>, s: Sample)
    requires h == [] || h[|h| - 1].verdict != s.verdict
    ensures HasStreak(h + [s], 1, s.at)
  {
    var more := h + [s];
    assert RunStartsAt(more, |h|);
    assert Advances(more, |h|) == 0;
    assert more[|h|] == s;
  }

  lemma RunGoesOn(h: seq<Sample>, s: Sample, i: nat)
    requires RunStartsAt(h, i) && h[|h| - 1].verdict == s.verdict
    ensures RunStartsAt(h + [s], i) && (h + [s])[i] == h[i]
    ensures Advances(h + [s], i) == Advances(h, i) + if s.local > h[|h| - 1].local then 1 else 0
  {
    var more := h + [s];
    assert more[..|more| - 1] == h;
    assert more[|more| - 2] == h[|h| - 1];
  }

  lemma RepeatedRecord(h: seq<Sample>, s: Sample, streak: nat, since: Time)
    requires h != [] && HasStreak(h, streak, since) && h[|h| - 1].verdict == s.verdict
    ensures HasStreak(h + [s], if s.local > h[|h| - 1].local then streak + 1 else streak, since)
  {
    var i: nat :| RunStartsAt(h, i) && streak == 1 + Advances(h, i) && since == h[i].at;
    RunGoesOn(h, s, i);
  }

  /** Record k was compared with a later local sample than the record before it. */
  predicate AdvancedAt(h: seq<Sample>, k: nat) {
    0 < k < |h| && h[k].local > h[k - 1].local
  }

  /** A streak beyond the first record stems from an advance in the run. */
  lemma {:induction false} AdvancesNeedSamples(h: seq<Sample>, i: nat) returns (k: nat)
    requires i < |h| && Advances(h, i) > 0
    ensures i < k && AdvancedAt(h, k)
    decreases |h|
  {
    if h[|h| - 1].local > h[|h| - 2].local {
      k := |h| - 1;
    } else {
      k := AdvancesNeedSamples(h[..|h| - 1], i);
    }
  }

  /** Without two different local samples in the run there is no streak to speak of: reading one
      local sample again and again never confirms anything. */
  lemma ConfirmingNeedsTwoSamples(h: seq<Sample>, streak: nat, since: Time) returns (i: nat, j: nat)
    requires HasStreak(h, streak, since) && streak >= CONFIRM_SWEEPS
    ensures i < j < |h| && SameVerdictFrom(h, i) && h[i].local < h[j].local
  {
    var start: nat :| RunStartsAt(h, start) && streak == 1 + Advances(h, start) && since == h[start].at;
    j := AdvancesNeedSamples(h, start);
    i := j - 1;
    SameVerdictLater(h, start, i);
  }

  lemma SameVerdictLater(h: seq<Sample>, i: nat, j: nat)
    requires SameVerdictFrom(h, i) && i <= j < |h|
    ensures SameVerdictFrom(h, j)
  {
  }
}
