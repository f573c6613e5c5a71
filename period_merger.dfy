/**
 * The period merger of the reconciliation pass: one employee's leave days,
 * in the order the report lists them, are cut into maximal runs in which
 * every day is the day after the previous one and has the same leave type.
 * Nothing is sorted: runs follow the raw order of the list.
 */
module PeriodMerger {
  import opened Models
  import opened Seqs

  /** `r1` is the day after `r2`, with the same leave type. */
  predicate RequestsAreSequential(r1: TimeOffRequestGroup, r2: TimeOffRequestGroup)
  {
    r1.entry - r2.entry == 1 && r1.timeOffType == r2.timeOffType
  }

  function Last<T>(s: seq<T>): T
    requires |s| > 0
  {
    s[|s| - 1]
  }

  /** A non-empty list in which each day follows the previous one with the same type. */
  predicate IsRun(r: seq<TimeOffRequestGroup>)
  {
    |r| > 0 && forall i :: 0 < i < |r| ==> RequestsAreSequential(r[i], r[i - 1])
  }

  /** Length of the longest run that starts at index `i` of `s`. */
  function RunLength(s: seq<TimeOffRequestGroup>, i: nat): (n: nat)
    requires i < |s|
    ensures 1 <= n <= |s| - i
    decreases |s| - i
  {
    if i + 1 < |s| && RequestsAreSequential(s[i + 1], s[i]) then 1 + RunLength(s, i + 1) else 1
  }

  /** The maximal runs of `s` from index `i` on, from left to right. */
  function RunsFrom(s: seq<TimeOffRequestGroup>, i: nat): seq<seq<TimeOffRequestGroup>>
    requires i <= |s|
    decreases |s| - i
  {
    if i == |s| then [] else
      var n := RunLength(s, i);
      [s[i..i + n]] + RunsFrom(s, i + n)
  }

  /** The maximal runs of `s`, from left to right (what `FindTimeOffPeriods` walks through). */
  function Runs(s: seq<TimeOffRequestGroup>): seq<seq<TimeOffRequestGroup>>
  {
    RunsFrom(s, 0)
  }

  /** The first and the last entry of each maximal run from index `i` on. */
  function RunEndsFrom(s: seq<TimeOffRequestGroup>, i: nat): seq<(TimeOffRequestGroup, TimeOffRequestGroup)>
    requires i <= |s|
    decreases |s| - i
  {
    if i == |s| then [] else
      var n := RunLength(s, i);
      [(s[i], s[i + n - 1])] + RunEndsFrom(s, i + n)
  }

  /** The first and the last entry of each maximal run of `s`, from left to right. */
  function RunEnds(s: seq<TimeOffRequestGroup>): seq<(TimeOffRequestGroup, TimeOffRequestGroup)>
  {
    RunEndsFrom(s, 0)
  }

  /** Inside the run that starts at `i`, each entry is the day after its predecessor, same type. */
  lemma {:induction false} RunLengthSequential(s: seq<TimeOffRequestGroup>, i: nat)
    requires i < |s|
    ensures forall m :: i < m < i + RunLength(s, i) ==> RequestsAreSequential(s[m], s[m - 1])
    decreases |s| - i
  {
    if i + 1 < |s| && RequestsAreSequential(s[i + 1], s[i]) {
      RunLengthSequential(s, i + 1);
    }
  }

  /** The entry right after the run does not continue it. */
  lemma {:induction false} RunLengthIsMaximal(s: seq<TimeOffRequestGroup>, i: nat)
    requires i < |s|
    ensures i + RunLength(s, i) < |s| ==>
      !RequestsAreSequential(s[i + RunLength(s, i)], s[i + RunLength(s, i) - 1])
    decreases |s| - i
  {
    if i + 1 < |s| && RequestsAreSequential(s[i + 1], s[i]) {
      RunLengthIsMaximal(s, i + 1);
    }
  }

  /** A run from `i` to `stop` that cannot be extended has exactly the length `RunLength` gives. */
  lemma {:induction false} RunLengthExact(s: seq<TimeOffRequestGroup>, i: nat, stop: nat)
    requires i < stop <= |s|
    requires forall m :: i < m < stop ==> RequestsAreSequential(s[m], s[m - 1])
    requires stop == |s| || !RequestsAreSequential(s[stop], s[stop - 1])
    ensures RunLength(s, i) == stop - i
    decreases stop - i
  {
    if i + 1 < stop {
      assert RequestsAreSequential(s[i + 1], s[i]);
      RunLengthExact(s, i + 1, stop);
    }
  }

  /** Every run is non-empty and consecutive in date and type. */
  lemma {:induction false} RunsFromAreRuns(s: seq<TimeOffRequestGroup>, i: nat)
    requires i <= |s|
    ensures forall k :: 0 <= k < |RunsFrom(s, i)| ==> IsRun(RunsFrom(s, i)[k])
    decreases |s| - i
  {
    if i < |s| {
      var n := RunLength(s, i);
      var run := s[i..i + n];
      RunLengthSequential(s, i);
      forall m | 0 < m < n
        ensures RequestsAreSequential(run[m], run[m - 1])
      {
        assert run[m] == s[i + m] && run[m - 1] == s[i + m - 1];
      }
      RunsFromAreRuns(s, i + n);
    }
  }

  lemma RunsAreRuns(s: seq<TimeOffRequestGroup>)
    ensures forall k :: 0 <= k < |Runs(s)| ==> IsRun(Runs(s)[k])
  {
    RunsFromAreRuns(s, 0);
  }

  /** Concatenated in order, the runs give back the list. */
  lemma {:induction false} RunsFromPartition(s: seq<TimeOffRequestGroup>, i: nat)
    requires i <= |s|
    ensures Flatten(RunsFrom(s, i)) == s[i..]
    decreases |s| - i
  {
    if i < |s| {
      var n := RunLength(s, i);
      RunsFromPartition(s, i + n);
      assert ([s[i..i + n]] + RunsFrom(s, i + n))[1..] == RunsFrom(s, i + n);
      assert s[i..i + n] + s[i + n..] == s[i..];
    } else {
      assert s[i..] == [];
    }
  }

  lemma RunsPartition(s: seq<TimeOffRequestGroup>)
    ensures Flatten(Runs(s)) == s
  {
    RunsFromPartition(s, 0);
  }

  /** Two neighbouring runs that could not have been one: the second does not continue the first. */
  predicate RunsBreak(before: seq<TimeOffRequestGroup>, after: seq<TimeOffRequestGroup>)
  {
    |before| > 0 && |after| > 0 && !RequestsAreSequential(after[0], Last(before))
  }

  /** The first day of a run never follows the last day of the run before it. */
  lemma {:induction false} RunsFromAreMaximal(s: seq<TimeOffRequestGroup>, i: nat)
    requires i <= |s|
    ensures forall k :: 0 < k < |RunsFrom(s, i)| ==> RunsBreak(RunsFrom(s, i)[k - 1], RunsFrom(s, i)[k])
    decreases |s| - i
  {
    if i < |s| {
      var n := RunLength(s, i);
      var rest := RunsFrom(s, i + n);
      var runs := RunsFrom(s, i);
      RunsFromAreMaximal(s, i + n);
      assert runs == [s[i..i + n]] + rest;
      forall k | 0 < k < |runs|
        ensures RunsBreak(runs[k - 1], runs[k])
      {
        if k == 1 {
          RunLengthIsMaximal(s, i);
          assert i + n < |s|;
          assert runs[1] == s[i + n..i + n + RunLength(s, i + n)];
          assert runs[1][0] == s[i + n] && Last(runs[0]) == s[i + n - 1];
        } else {
          assert runs[k - 1] == rest[k - 2] && runs[k] == rest[k - 1];
        }
      }
    }
  }

  lemma RunsAreMaximal(s: seq<TimeOffRequestGroup>)
    ensures forall k :: 0 < k < |Runs(s)| ==> RunsBreak(Runs(s)[k - 1], Runs(s)[k])
  {
    RunsFromAreMaximal(s, 0);
  }

  /** Along a run the date grows by one per entry and the type stays that of the first entry. */
  lemma {:induction false} RunSpan(r: seq<TimeOffRequestGroup>)
    requires IsRun(r)
    ensures Last(r).entry - r[0].entry == |r| - 1
    ensures Last(r).timeOffType == r[0].timeOffType
  {
    if |r| > 1 {
      RunSpan(r[..|r| - 1]);
      assert RequestsAreSequential(r[|r| - 1], r[|r| - 2]);
    }
  }

  /** `RunEndsFrom` pairs each maximal run with its first and its last entry. */
  lemma {:induction false} RunEndsFromOfRuns(s: seq<TimeOffRequestGroup>, i: nat)
    requires i <= |s|
    ensures |RunEndsFrom(s, i)| == |RunsFrom(s, i)|
    ensures forall k :: 0 <= k < |RunsFrom(s, i)| ==>
      |RunsFrom(s, i)[k]| > 0 && RunEndsFrom(s, i)[k] == (RunsFrom(s, i)[k][0], Last(RunsFrom(s, i)[k]))
    decreases |s| - i
  {
    if i < |s| {
      var n := RunLength(s, i);
      RunEndsFromOfRuns(s, i + n);
      var runs := RunsFrom(s, i);
      var ends := RunEndsFrom(s, i);
      assert runs == [s[i..i + n]] + RunsFrom(s, i + n);
      assert ends == [(s[i], s[i + n - 1])] + RunEndsFrom(s, i + n);
      forall k | 0 <= k < |runs|
        ensures |runs[k]| > 0 && ends[k] == (runs[k][0], Last(runs[k]))
      {
        if k > 0 {
          assert runs[k] == RunsFrom(s, i + n)[k - 1] && ends[k] == RunEndsFrom(s, i + n)[k - 1];
        }
      }
    }
  }

  /** The (first, last) pairs are those of the maximal runs. */
  lemma RunEndsOfRuns(s: seq<TimeOffRequestGroup>)
    ensures |RunEnds(s)| == |Runs(s)|
    ensures forall k :: 0 <= k < |Runs(s)| ==>
      |Runs(s)[k]| > 0 && RunEnds(s)[k] == (Runs(s)[k][0], Last(Runs(s)[k]))
  {
    RunEndsFromOfRuns(s, 0);
  }

  /** One turn of the outer loop of `FindTimeOffPeriods` keeps its invariant. */
  lemma RunEndsExtend(groups: seq<TimeOffRequestGroup>, periods: seq<(TimeOffRequestGroup, TimeOffRequestGroup)>, start: nat, stop: nat)
    requires start < stop <= |groups|
    requires forall m :: start < m < stop ==> RequestsAreSequential(groups[m], groups[m - 1])
    requires stop == |groups| || !RequestsAreSequential(groups[stop], groups[stop - 1])
    requires periods + RunEndsFrom(groups, start) == RunEnds(groups)
    ensures (periods + [(groups[start], groups[stop - 1])]) + RunEndsFrom(groups, stop) == RunEnds(groups)
  {
    RunLengthExact(groups, start, stop);
  }

  /**
   * `FindTimeOffPeriods`: the first and the last entry of each maximal run,
   * found by one pass of an enumerator over the list.
   */
  method FindTimeOffPeriods(groups: seq<TimeOffRequestGroup>)
    returns (periods: seq<(TimeOffRequestGroup, TimeOffRequestGroup)>)
    ensures periods == RunEnds(groups)
  {
    periods := [];
    var cur := 0;                  // index of the enumerator's Current
    var more := cur < |groups|;    // first MoveNext
    while more
      invariant 0 <= cur <= |groups| && more == (cur < |groups|)
      invariant periods + RunEndsFrom(groups, cur) == RunEnds(groups)
      decreases |groups| - cur
    {
      var first := groups[cur];
      var last := groups[cur];
      ghost var start := cur;
      cur := cur + 1;
      more := cur < |groups|;
      while more && RequestsAreSequential(groups[cur], last)
        invariant start < cur <= |groups| && more == (cur < |groups|)
        invariant first == groups[start] && last == groups[cur - 1]
        invariant forall m :: start < m < cur ==> RequestsAreSequential(groups[m], groups[m - 1])
        decreases |groups| - cur
      {
        last := groups[cur];
        cur := cur + 1;
        more := cur < |groups|;
      }
      RunEndsExtend(groups, periods, start, cur);
      periods := periods + [(first, last)];
    }
    assert periods + [] == periods;
  }
}
