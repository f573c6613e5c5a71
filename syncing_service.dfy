/**
 * The reconciliation engine: one pass over a snapshot of the calendar's
 * out-of-office events and a snapshot of the Workday report, giving the
 * events to create and the events to delete.
 *
 * Each employee's leave days are merged into periods; each period has an
 * identity `name - type start end`; a period whose identity is not already
 * a content key of the calendar is created; every identity is recorded as
 * live; finally the duplicates of the calendar and the calendar events
 * whose content key is not live are deleted.
 */
module SyncingService {
  import opened Wrappers
  import opened Dates
  import opened Models
  import opened WorkdayExtractor
  import opened GoogleCalendarApi
  import opened PeriodMerger
  import opened EventIndex
  import opened Seqs

  /** Location of every event the pass creates. */
  const OutOfOfficeLocation: string := "Out of Office"

  /** The end the calendar gets: a period spanning a day or more ends the day after its last day. */
  function AdjustedEnd(startTime: Day, endTime: Day): Day
  {
    if endTime - startTime >= 1 then endTime + 1 else endTime
  }

  /**
   * One merged run of one employee as the create step sees it: the name, the
   * type of the run's last entry, the text of its first day and the text of
   * the end the calendar gets.
   */
  datatype Period = Period(name: string, timeOffType: string, startDate: string, endDate: string)

  /** The period from `startTime` to `endTime`, with the end adjusted and both days formatted. */
  function DayPeriod(name: string, timeOffType: string, startTime: Day, endTime: Day): Period
  {
    Period(name, timeOffType, Format(startTime), Format(AdjustedEnd(startTime, endTime)))
  }

  /** The identity the period is recorded and looked up under. */
  function PeriodId(p: Period): string
  {
    GetEventId(p.name, p.timeOffType, p.startDate, p.endDate)
  }

  /** The all-day event the pass creates for the period. */
  function PeriodEvent(p: Period): Event
  {
    Event(
      None,
      Some(p.name + " - " + p.timeOffType),
      Some(OutOfOfficeLocation),
      Some(EventDateTime(Some(p.startDate), None)),
      Some(EventDateTime(Some(p.endDate), None)))
  }

  /**
   * The content key of the event created for a period is, character for
   * character, the identity it was created under: this is what lets the
   * next pass find it in the dictionary.
   */
  lemma PeriodEventKeyIsId(p: Period)
    ensures MakeGoogleEventKey(PeriodEvent(p)) == Success(PeriodId(p))
  {
  }

  /** A created event whose leave type is one of the out-of-office texts is kept by the listing filter. */
  lemma PeriodEventIsListed(p: Period)
    requires p.timeOffType in OutOfOfficeStrings
    ensures EventContainsOutOfOfficeString(PeriodEvent(p))
  {
    var k :| 0 <= k < |OutOfOfficeStrings| && OutOfOfficeStrings[k] == p.timeOffType;
    ContainsSuffix(p.name + " - ", p.timeOffType);
    assert (p.name + " - ") + p.timeOffType == p.name + " - " + p.timeOffType;
  }

  /**
   * `CreateGoogleEventFromWorkdayEntries`: records the period's identity as
   * live and returns the event to create, or nothing when the identity is
   * already a content key of the calendar.
   */
  method CreateGoogleEventFromWorkdayEntries(
    startTime: Day, endTime: Day, employeeName: string, timeOffType: string,
    googleEventsDictionary: EventDictionary, workdayNameDateIds: set<string>)
    returns (e: Option<Event>, ids: set<string>)
    ensures ids == workdayNameDateIds + {PeriodId(DayPeriod(employeeName, timeOffType, startTime, endTime))}
    ensures e.Some? <==> PeriodId(DayPeriod(employeeName, timeOffType, startTime, endTime)) !in googleEventsDictionary.entries
    ensures e.Some? ==>
      e.value == PeriodEvent(DayPeriod(employeeName, timeOffType, startTime, endTime))
  {
    var end := endTime;
    if end - startTime >= 1 {
      end := end + 1;
    }
    var eventId := GetEventId(employeeName, timeOffType, Format(startTime), Format(end));
    ids := workdayNameDateIds + {eventId};
    if eventId !in googleEventsDictionary.entries {
      var calendarEvent := Event(
        None,
        Some(employeeName + " - " + timeOffType),
        Some(OutOfOfficeLocation),
        Some(EventDateTime(Some(Format(startTime)), None)),
        Some(EventDateTime(Some(Format(end)), None)));
      return Some(calendarEvent), ids;
    }
    e := None;
  }

  // ----- the periods of a report -----

  /** The period of a (first, last) pair: named after the employee, typed after the last entry. */
  function PairPeriod(name: string, pair: (TimeOffRequestGroup, TimeOffRequestGroup)): Period
  {
    DayPeriod(name, pair.1.timeOffType, pair.0.entry, pair.1.entry)
  }

  /** The periods of the (first, last) pairs, in order. */
  function PairPeriods(name: string, pairs: seq<(TimeOffRequestGroup, TimeOffRequestGroup)>): (r: seq<Period>)
    ensures |r| == |pairs|
  {
    seq(|pairs|, k requires 0 <= k < |pairs| => PairPeriod(name, pairs[k]))
  }

  /** The period of one run. */
  function RunPeriod(name: string, run: seq<TimeOffRequestGroup>): Period
    requires |run| > 0
  {
    PairPeriod(name, (run[0], Last(run)))
  }

  /** The periods of one report entry; a null request group gives none. */
  function EntryPeriods(entry: ReportEntry): seq<Period>
  {
    match entry.requestGroup
    case None => []
    case Some(groups) => PairPeriods(entry.name, RunEnds(groups))
  }

  /** The periods of the whole report, entry after entry. */
  function ReportPeriods(entries: seq<ReportEntry>): seq<Period>
  {
    FlatMap(EntryPeriods, entries)
  }

  /** The identities of the first `n` periods. */
  function LiveIdsUpTo(periods: seq<Period>, n: nat): set<string>
    requires n <= |periods|
  {
    if n == 0 then {} else LiveIdsUpTo(periods, n - 1) + {PeriodId(periods[n - 1])}
  }

  /** The identities of the periods: the live-id set at the end of the create step. */
  function LiveIds(periods: seq<Period>): set<string>
  {
    LiveIdsUpTo(periods, |periods|)
  }

  /** The event the create step returns for a period: none when its identity is a dictionary key. */
  function CreatedFor(dict: EventDictionary, p: Period): seq<Event>
  {
    if PeriodId(p) in dict.entries then [] else [PeriodEvent(p)]
  }

  /** In order, the events created for the first `n` periods. */
  function CreatesUpTo(dict: EventDictionary, periods: seq<Period>, n: nat): seq<Event>
    requires n <= |periods|
  {
    if n == 0 then [] else CreatesUpTo(dict, periods, n - 1) + CreatedFor(dict, periods[n - 1])
  }

  /** In order, the events created for the periods whose identity is not a dictionary key. */
  function Creates(dict: EventDictionary, periods: seq<Period>): seq<Event>
  {
    CreatesUpTo(dict, periods, |periods|)
  }

  /** What has been created and recorded for the first `n` periods does not depend on the periods after them. */
  lemma {:induction false} UpToPrefix(dict: EventDictionary, a: seq<Period>, b: seq<Period>, n: nat)
    requires n <= |a|
    ensures CreatesUpTo(dict, a + b, n) == CreatesUpTo(dict, a, n)
    ensures LiveIdsUpTo(a + b, n) == LiveIdsUpTo(a, n)
  {
    if n > 0 {
      UpToPrefix(dict, a, b, n - 1);
      assert (a + b)[n - 1] == a[n - 1];
    }
  }

  /** Up to the end is all of it. */
  lemma UpToAll(dict: EventDictionary, periods: seq<Period>, n: nat)
    requires n == |periods|
    ensures CreatesUpTo(dict, periods, n) == Creates(dict, periods)
    ensures LiveIdsUpTo(periods, n) == LiveIds(periods)
  {
  }

  /** The `j`-th pair's period, placed after the periods before it. */
  lemma PairPeriodAt(before: seq<Period>, name: string, pairs: seq<(TimeOffRequestGroup, TimeOffRequestGroup)>, j: nat)
    requires j < |pairs|
    ensures (before + PairPeriods(name, pairs))[|before| + j] == PairPeriod(name, pairs[j])
  {
  }

  /** The create step run on the `k`-th period extends the events and the live ids of the first `k`. */
  method CreateForPair(
    googleEventsDictionary: EventDictionary, workdayNameDateIds: set<string>, name: string,
    pair: (TimeOffRequestGroup, TimeOffRequestGroup), ghost all: seq<Period>, ghost k: nat,
    created0: seq<Event>, ids0: set<string>)
    returns (created: seq<Event>, ids: set<string>)
    requires k < |all| && all[k] == PairPeriod(name, pair)
    requires created0 == CreatesUpTo(googleEventsDictionary, all, k)
    requires ids0 == workdayNameDateIds + LiveIdsUpTo(all, k)
    ensures created == CreatesUpTo(googleEventsDictionary, all, k + 1)
    ensures ids == workdayNameDateIds + LiveIdsUpTo(all, k + 1)
  {
    var (start, end) := pair;
    var e;
    e, ids := CreateGoogleEventFromWorkdayEntries(
      start.entry, end.entry, name, end.timeOffType, googleEventsDictionary, ids0);
    created := if e.Some? then created0 + [e.value] else created0;
  }

  /** The inner loop: the create step for each (first, last) pair of one employee, in order. */
  method CreateForPairs(
    googleEventsDictionary: EventDictionary, workdayNameDateIds: set<string>, name: string,
    pairs: seq<(TimeOffRequestGroup, TimeOffRequestGroup)>,
    ghost before: seq<Period>, created0: seq<Event>, ids0: set<string>)
    returns (created: seq<Event>, ids: set<string>)
    requires created0 == Creates(googleEventsDictionary, before)
    requires ids0 == workdayNameDateIds + LiveIds(before)
    ensures created == Creates(googleEventsDictionary, before + PairPeriods(name, pairs))
    ensures ids == workdayNameDateIds + LiveIds(before + PairPeriods(name, pairs))
  {
    ghost var all := before + PairPeriods(name, pairs);
    UpToPrefix(googleEventsDictionary, before, PairPeriods(name, pairs), |before|);
    created, ids := created0, ids0;
    var j := 0;
    ghost var k := |before|;
    while j < |pairs|
      invariant 0 <= j <= |pairs| && k == |before| + j && |all| == |before| + |pairs|
      invariant created == CreatesUpTo(googleEventsDictionary, all, k)
      invariant ids == workdayNameDateIds + LiveIdsUpTo(all, k)
    {
      PairPeriodAt(before, name, pairs, j);
      created, ids := CreateForPair(
        googleEventsDictionary, workdayNameDateIds, name, pairs[j], all, k, created, ids);
      j, k := j + 1, k + 1;
    }
    UpToAll(googleEventsDictionary, all, k);
  }

  /**
   * The body of the outer loop of `GenerateGoogleEventsUsingWorkdayEntries`
   * for one report entry: nothing for a null request group, otherwise the
   * create step for each (first, last) pair `FindTimeOffPeriods` yields.
   */
  method GenerateForEntry(
    googleEventsDictionary: EventDictionary, workdayNameDateIds: set<string>, reportEntry: ReportEntry,
    ghost before: seq<Period>, created0: seq<Event>, ids0: set<string>)
    returns (created: seq<Event>, ids: set<string>)
    requires created0 == Creates(googleEventsDictionary, before)
    requires ids0 == workdayNameDateIds + LiveIds(before)
    ensures created == Creates(googleEventsDictionary, before + EntryPeriods(reportEntry))
    ensures ids == workdayNameDateIds + LiveIds(before + EntryPeriods(reportEntry))
  {
    if reportEntry.requestGroup.None? {
      assert before + EntryPeriods(reportEntry) == before;
      return created0, ids0;
    }
    var timeOffPeriods := FindTimeOffPeriods(reportEntry.requestGroup.value);
    created, ids := CreateForPairs(
      googleEventsDictionary, workdayNameDateIds, reportEntry.name, timeOffPeriods, before, created0, ids0);
  }

  /** The periods of one more report entry follow those of the entries before it. */
  lemma ReportPeriodsStep(entries: seq<ReportEntry>, i: nat)
    requires i < |entries|
    ensures ReportPeriods(entries[..i + 1]) == ReportPeriods(entries[..i]) + EntryPeriods(entries[i])
  {
    assert entries[..i + 1] == entries[..i] + [entries[i]];
    ReportPeriodsAppend(entries[..i], entries[i]);
  }

  /**
   * `GenerateGoogleEventsUsingWorkdayEntries`: for each report entry with a
   * request group, for each of its periods, runs the create step, threading
   * the live-id set through and keeping the events it returns.
   */
  method GenerateGoogleEventsUsingWorkdayEntries(
    googleEventsDictionary: EventDictionary, workdayNameDateIds: set<string>, workdayRootObject: WorkdayRootObject)
    returns (created: seq<Event>, ids: set<string>)
    ensures created == Creates(googleEventsDictionary, ReportPeriods(workdayRootObject.reportEntry))
    ensures ids == workdayNameDateIds + LiveIds(ReportPeriods(workdayRootObject.reportEntry))
  {
    var entries := workdayRootObject.reportEntry;
    created, ids := [], workdayNameDateIds;
    var i := 0;
    while i < |entries|
      invariant 0 <= i <= |entries|
      invariant created == Creates(googleEventsDictionary, ReportPeriods(entries[..i]))
      invariant ids == workdayNameDateIds + LiveIds(ReportPeriods(entries[..i]))
    {
      ReportPeriodsStep(entries, i);
      created, ids := GenerateForEntry(googleEventsDictionary, workdayNameDateIds, entries[i], ReportPeriods(entries[..i]), created, ids);
      i := i + 1;
    }
    assert entries[..i] == entries;
  }

  // ----- what the create step computes -----

  /**
   * A one-day run keeps its day as the end; a longer run ends the day after
   * its last day. The period carries the type the whole run shares.
   */
  lemma RunPeriodEnd(name: string, run: seq<TimeOffRequestGroup>)
    requires IsRun(run)
    ensures RunPeriod(name, run).startDate == Format(run[0].entry)
    ensures RunPeriod(name, run).endDate == Format(if |run| >= 2 then Last(run).entry + 1 else run[0].entry)
    ensures RunPeriod(name, run).timeOffType == run[0].timeOffType
  {
    RunSpan(run);
  }

  /** The periods of a report entry are those of the maximal runs of its request list, left to right. */
  lemma EntryPeriodsAreRunPeriods(entry: ReportEntry)
    requires entry.requestGroup.Some?
    ensures |EntryPeriods(entry)| == |Runs(entry.requestGroup.value)|
    ensures forall k :: 0 <= k < |EntryPeriods(entry)| ==>
      IsRun(Runs(entry.requestGroup.value)[k]) &&
      EntryPeriods(entry)[k] == RunPeriod(entry.name, Runs(entry.requestGroup.value)[k])
  {
    RunEndsOfRuns(entry.requestGroup.value);
    RunsAreRuns(entry.requestGroup.value);
  }

  lemma ReportPeriodsAppend(entries: seq<ReportEntry>, entry: ReportEntry)
    ensures ReportPeriods(entries + [entry]) == ReportPeriods(entries) + EntryPeriods(entry)
  {
    FlatMapAppend(EntryPeriods, entries, entry);
  }

  lemma ReportPeriodsConcat(a: seq<ReportEntry>, b: seq<ReportEntry>)
    ensures ReportPeriods(a + b) == ReportPeriods(a) + ReportPeriods(b)
  {
    FlatMapConcat(EntryPeriods, a, b);
  }

  /** A report entry whose request group is null contributes no period wherever it stands. */
  lemma NullRequestGroupContributesNothing(before: seq<ReportEntry>, entry: ReportEntry, after: seq<ReportEntry>)
    requires entry.requestGroup.None?
    ensures ReportPeriods(before + [entry] + after) == ReportPeriods(before + after)
  {
    ReportPeriodsConcat(before + [entry], after);
    ReportPeriodsConcat(before, after);
    ReportPeriodsAppend(before, entry);
  }

  /** The identity of each of the first `n` periods is live. */
  lemma {:induction false} LiveIdsUpToHasAll(periods: seq<Period>, n: nat)
    requires n <= |periods|
    ensures forall i :: 0 <= i < n ==> PeriodId(periods[i]) in LiveIdsUpTo(periods, n)
  {
    if n > 0 {
      LiveIdsUpToHasAll(periods, n - 1);
    }
  }

  /** Every period's identity is live. */
  lemma LiveIdsHasAll(periods: seq<Period>)
    ensures forall i :: 0 <= i < |periods| ==> PeriodId(periods[i]) in LiveIds(periods)
  {
    LiveIdsUpToHasAll(periods, |periods|);
  }

  /** Every identity recorded for the first `n` periods is that of one of them. */
  lemma {:induction false} LiveIdsUpToHasOnly(periods: seq<Period>, n: nat)
    requires n <= |periods|
    ensures forall id :: id in LiveIdsUpTo(periods, n) ==> exists i :: 0 <= i < n && PeriodId(periods[i]) == id
  {
    if n > 0 {
      LiveIdsUpToHasOnly(periods, n - 1);
    }
  }

  /** Every live id is the identity of some period. */
  lemma LiveIdsHasOnly(periods: seq<Period>)
    ensures forall id :: id in LiveIds(periods) ==> exists i :: 0 <= i < |periods| && PeriodId(periods[i]) == id
  {
    LiveIdsUpToHasOnly(periods, |periods|);
  }

  /** Every event created for the first `n` periods is that of one of them whose identity is not a key. */
  lemma {:induction false} CreatesUpToHasOnly(dict: EventDictionary, periods: seq<Period>, n: nat)
    requires n <= |periods|
    ensures forall e :: e in CreatesUpTo(dict, periods, n) ==>
      exists i :: 0 <= i < n && PeriodId(periods[i]) !in dict.entries && e == PeriodEvent(periods[i])
  {
    if n > 0 {
      CreatesUpToHasOnly(dict, periods, n - 1);
    }
  }

  /** Every created event is the event of a period whose identity is not a dictionary key. */
  lemma CreatesHasOnly(dict: EventDictionary, periods: seq<Period>)
    ensures forall e :: e in Creates(dict, periods) ==>
      exists i :: 0 <= i < |periods| && PeriodId(periods[i]) !in dict.entries && e == PeriodEvent(periods[i])
  {
    CreatesUpToHasOnly(dict, periods, |periods|);
  }

  /** Each of the first `n` periods whose identity is not a key has its event created. */
  lemma {:induction false} CreatesUpToHasAll(dict: EventDictionary, periods: seq<Period>, n: nat)
    requires n <= |periods|
    ensures forall i :: 0 <= i < n && PeriodId(periods[i]) !in dict.entries ==>
      PeriodEvent(periods[i]) in CreatesUpTo(dict, periods, n)
  {
    if n > 0 {
      CreatesUpToHasAll(dict, periods, n - 1);
    }
  }

  /** Every period whose identity is not a dictionary key has its event created. */
  lemma CreatesHasAll(dict: EventDictionary, periods: seq<Period>)
    ensures forall i :: 0 <= i < |periods| && PeriodId(periods[i]) !in dict.entries ==>
      PeriodEvent(periods[i]) in Creates(dict, periods)
  {
    CreatesUpToHasAll(dict, periods, |periods|);
  }

  /** When every identity is already a dictionary key, nothing is created. */
  lemma {:induction false} AllKnownMeansNoneCreated(dict: EventDictionary, periods: seq<Period>, n: nat)
    requires n <= |periods|
    requires forall i :: 0 <= i < |periods| ==> PeriodId(periods[i]) in dict.entries
    ensures CreatesUpTo(dict, periods, n) == []
  {
    if n > 0 {
      AllKnownMeansNoneCreated(dict, periods, n - 1);
    }
  }

  /** Every created event has a key, the identity of a period that is not a dictionary key. */
  lemma CreatedKeysAreNewIds(dict: EventDictionary, periods: seq<Period>)
    ensures forall e :: e in Creates(dict, periods) ==>
      MakeGoogleEventKey(e).Success? && Key(e) in LiveIds(periods) - dict.entries.Keys
  {
    forall e | e in Creates(dict, periods)
      ensures MakeGoogleEventKey(e).Success? && Key(e) in LiveIds(periods) - dict.entries.Keys
    {
      CreatesHasOnly(dict, periods);
      var i :| 0 <= i < |periods| && PeriodId(periods[i]) !in dict.entries && e == PeriodEvent(periods[i]);
      PeriodEventKeyIsId(periods[i]);
      LiveIdsHasAll(periods);
    }
  }

  /** The created events are keyed by exactly the identities that are not dictionary keys. */
  lemma CreatesKeys(dict: EventDictionary, periods: seq<Period>)
    ensures Keyed(Creates(dict, periods))
    ensures KeySet(Creates(dict, periods)) == LiveIds(periods) - dict.entries.Keys
  {
    var created := Creates(dict, periods);
    CreatedKeysAreNewIds(dict, periods);
    assert Keyed(created);
    forall id | id in KeySet(created)
      ensures id in LiveIds(periods) - dict.entries.Keys
    {
      KeySetMembers(created);
    }
    forall id | id in LiveIds(periods) - dict.entries.Keys
      ensures id in KeySet(created)
    {
      LiveIdsHasOnly(periods);
      var i :| 0 <= i < |periods| && PeriodId(periods[i]) == id;
      PeriodEventKeyIsId(periods[i]);
      CreatesHasAll(dict, periods);
      KeySetMembers(created);
    }
  }

  /** When no two periods share an identity, a period's identity is not a key of the events created before it. */
  lemma CreatedBeforeHaveOtherKeys(dict: EventDictionary, periods: seq<Period>, n: nat)
    requires n < |periods|
    requires forall i, j :: 0 <= i < j < |periods| ==> PeriodId(periods[i]) != PeriodId(periods[j])
    requires Keyed(CreatesUpTo(dict, periods, n))
    ensures PeriodId(periods[n]) !in KeySet(CreatesUpTo(dict, periods, n))
  {
    var created := CreatesUpTo(dict, periods, n);
    forall k | k in KeySet(created)
      ensures k != PeriodId(periods[n])
    {
      KeySetMembers(created);
      var j :| 0 <= j < |created| && Key(created[j]) == k;
      assert created[j] in created;
      CreatesUpToHasOnly(dict, periods, n);
      var i :| 0 <= i < n && PeriodId(periods[i]) !in dict.entries && created[j] == PeriodEvent(periods[i]);
      PeriodEventKeyIsId(periods[i]);
    }
  }

  /** The event of a period whose identity is not yet a key of the list keeps the keys distinct. */
  lemma NewPeriodEventKeepsDistinct(events: seq<Event>, p: Period)
    requires Keyed(events) && DistinctKeys(events) && PeriodId(p) !in KeySet(events)
    ensures Keyed(events + [PeriodEvent(p)]) && DistinctKeys(events + [PeriodEvent(p)])
  {
    PeriodEventKeyIsId(p);
    DistinctKeysSnoc(events, PeriodEvent(p));
  }

  /** The create step for the `n`-th period keeps the created events' keys distinct. */
  lemma CreatesStepDistinct(dict: EventDictionary, periods: seq<Period>, n: nat)
    requires 0 < n <= |periods|
    requires forall i, j :: 0 <= i < j < |periods| ==> PeriodId(periods[i]) != PeriodId(periods[j])
    requires Keyed(CreatesUpTo(dict, periods, n - 1)) && DistinctKeys(CreatesUpTo(dict, periods, n - 1))
    ensures Keyed(CreatesUpTo(dict, periods, n)) && DistinctKeys(CreatesUpTo(dict, periods, n))
  {
    var p := periods[n - 1];
    var before := CreatesUpTo(dict, periods, n - 1);
    if PeriodId(p) in dict.entries {
      assert CreatesUpTo(dict, periods, n) == before;
    } else {
      assert CreatesUpTo(dict, periods, n) == before + [PeriodEvent(p)];
      CreatedBeforeHaveOtherKeys(dict, periods, n - 1);
      NewPeriodEventKeepsDistinct(before, p);
    }
  }

  /** When no two periods share an identity, no two created events share a key. */
  lemma {:induction false} CreatesUpToDistinct(dict: EventDictionary, periods: seq<Period>, n: nat)
    requires n <= |periods|
    requires forall i, j :: 0 <= i < j < |periods| ==> PeriodId(periods[i]) != PeriodId(periods[j])
    ensures Keyed(CreatesUpTo(dict, periods, n)) && DistinctKeys(CreatesUpTo(dict, periods, n))
  {
    if n > 0 {
      CreatesUpToDistinct(dict, periods, n - 1);
      CreatesStepDistinct(dict, periods, n);
    }
  }

  /**
   * No created event is among the listed events: its content key is its
   * identity, which is not a key of the listing's dictionary.
   */
  lemma CreatesAreNew(events: seq<Event>, periods: seq<Period>)
    requires Keyed(events)
    ensures forall e :: e in Creates(Index(events), periods) ==>
      MakeGoogleEventKey(e).Success? && Key(e) !in KeySet(events) && e !in events
  {
    CreatesHasOnly(Index(events), periods);
    IndexKeys(events);
    KeySetMembers(events);
    forall e | e in Creates(Index(events), periods)
      ensures MakeGoogleEventKey(e).Success? && Key(e) !in KeySet(events) && e !in events
    {
      var i :| 0 <= i < |periods| && PeriodId(periods[i]) !in Index(events).entries && e == PeriodEvent(periods[i]);
      PeriodEventKeyIsId(periods[i]);
    }
  }

  // ----- the delete step -----

  /**
   * The `Where`/`Select` over the dictionary: in the dictionary's order, the
   * events whose key is not a live identity.
   */
  function EventsNotInWorkday(dict: EventDictionary, ids: set<string>): seq<Event>
    requires forall k :: k in dict.order ==> k in dict.entries
    decreases |dict.order|
  {
    if dict.order == [] then [] else
      var n := |dict.order| - 1;
      var k := dict.order[n];
      EventsNotInWorkday(EventDictionary(dict.order[..n], dict.entries), ids)
        + (if k in ids then [] else [dict.entries[k]])
  }

  /** `GetGoogleEventsToDelete`: the duplicates, then the dictionary's events that are not live. */
  method GetGoogleEventsToDelete(googleEventsList: seq<Event>, googleEventsDictionary: EventDictionary, workdayNameDateIds: set<string>)
    returns (r: Result<seq<Event>>)
    requires forall k :: k in googleEventsDictionary.order ==> k in googleEventsDictionary.entries
    ensures r.Success? <==> Keyed(googleEventsList)
    ensures r.Success? ==>
      r.value == Duplicates(googleEventsList) + EventsNotInWorkday(googleEventsDictionary, workdayNameDateIds)
  {
    var duplicateEvents := FindDuplicateGoogleEvents(googleEventsList);
    if duplicateEvents.Failure? {
      return Failure(duplicateEvents.error);
    }
    r := Success(duplicateEvents.value + EventsNotInWorkday(googleEventsDictionary, workdayNameDateIds));
  }

  // ----- what the delete step removes -----

  /** Appending a key to the order appends its event unless the key is live. */
  lemma EventsNotInWorkdayAppend(order: seq<string>, k: string, entries: map<string, Event>, ids: set<string>)
    requires forall k' :: k' in order + [k] ==> k' in entries
    ensures EventsNotInWorkday(EventDictionary(order + [k], entries), ids)
      == EventsNotInWorkday(EventDictionary(order, entries), ids) + (if k in ids then [] else [entries[k]])
  {
    assert (order + [k])[..|order|] == order;
  }

  /** Only the entries of the listed keys matter. */
  lemma {:induction false} EventsNotInWorkdayFrame(
    order: seq<string>, entries: map<string, Event>, entries': map<string, Event>, ids: set<string>)
    requires forall k :: k in order ==> k in entries && k in entries' && entries[k] == entries'[k]
    ensures EventsNotInWorkday(EventDictionary(order, entries), ids) == EventsNotInWorkday(EventDictionary(order, entries'), ids)
    decreases |order|
  {
    if order != [] {
      var n := |order| - 1;
      EventsNotInWorkdayFrame(order[..n], entries, entries', ids);
    }
  }

  /** In order, the first occurrences whose content key is not live. */
  function StaleFirstOccurrences(events: seq<Event>, ids: set<string>): seq<Event>
    requires Keyed(events)
  {
    if events == [] then [] else
      var n := |events| - 1;
      StaleFirstOccurrences(events[..n], ids)
        + (if !IsDuplicateAt(events, n) && Key(events[n]) !in ids then [events[n]] else [])
  }

  /** In order, the first occurrences whose content key is live: the listed events the pass keeps. */
  function Survivors(events: seq<Event>, ids: set<string>): (r: seq<Event>)
    requires Keyed(events)
    ensures forall e :: e in r ==> e in events
    ensures Keyed(r)
  {
    if events == [] then [] else
      var n := |events| - 1;
      Survivors(events[..n], ids)
        + (if !IsDuplicateAt(events, n) && Key(events[n]) in ids then [events[n]] else [])
  }

  /**
   * The dictionary's events whose key is not live are the stale first
   * occurrences, in listing order: the dictionary holds the first event of
   * each key, in the order the keys were first seen.
   */
  lemma {:induction false} EventsNotInWorkdayAreStaleFirstOccurrences(events: seq<Event>, ids: set<string>)
    requires Keyed(events)
    ensures ValidDictionary(Index(events))
    ensures EventsNotInWorkday(Index(events), ids) == StaleFirstOccurrences(events, ids)
  {
    IndexKeys(events);
    if events != [] {
      var n := |events| - 1;
      var prefix := events[..n];
      var d := Index(prefix);
      var k := Key(events[n]);
      EventsNotInWorkdayAreStaleFirstOccurrences(prefix, ids);
      IndexKeys(prefix);
      assert IsDuplicateAt(events, n) <==> k in d.entries;
      if k !in d.entries {
        var entries := d.entries[k := events[n]];
        EventsNotInWorkdayAppend(d.order, k, entries, ids);
        EventsNotInWorkdayFrame(d.order, d.entries, entries, ids);
      }
    }
  }

  /** The stale first occurrences and the survivors split the first occurrences, each counted once. */
  lemma {:induction false} FirstOccurrencesSplit(events: seq<Event>, ids: set<string>)
    requires Keyed(events)
    ensures multiset(StaleFirstOccurrences(events, ids)) + multiset(Survivors(events, ids)) == multiset(FirstOccurrences(events))
  {
    if events != [] {
      var n := |events| - 1;
      var prefix := events[..n];
      FirstOccurrencesSplit(prefix, ids);
      var xs := if IsDuplicateAt(events, n) then [] else [events[n]];
      SplitStep(StaleFirstOccurrences(prefix, ids), Survivors(prefix, ids), FirstOccurrences(prefix), xs, Key(events[n]) !in ids);
    }
  }

  /** The duplicates, the stale first occurrences and the survivors split the listing, each event counted once. */
  lemma DeletesPartition(events: seq<Event>, ids: set<string>)
    requires Keyed(events)
    ensures multiset(Duplicates(events)) + multiset(StaleFirstOccurrences(events, ids)) + multiset(Survivors(events, ids))
      == multiset(events)
  {
    FirstOccurrencesSplit(events, ids);
    DuplicatesPartition(events);
  }

  /** Every survivor is a listed event with a live key. */
  lemma {:induction false} SurvivorsAreLive(events: seq<Event>, ids: set<string>)
    requires Keyed(events)
    ensures forall e :: e in Survivors(events, ids) ==> e in events && MakeGoogleEventKey(e).Success? && Key(e) in ids
  {
    if events != [] {
      SurvivorsAreLive(events[..|events| - 1], ids);
    }
  }

  /** The keys of the survivors are exactly the listed keys that are live. */
  lemma {:induction false} SurvivorKeys(events: seq<Event>, ids: set<string>)
    requires Keyed(events)
    ensures KeySet(Survivors(events, ids)) == KeySet(events) * ids
  {
    if events != [] {
      var n := |events| - 1;
      var prefix := events[..n];
      var e := events[n];
      SurvivorKeys(prefix, ids);
      assert KeySet(events) == KeySet(prefix) + {Key(e)};
      if !IsDuplicateAt(events, n) && Key(e) in ids {
        KeySetSnoc(Survivors(prefix, ids), e);
      } else {
        assert Survivors(events, ids) == Survivors(prefix, ids);
      }
    }
  }

  /** No two survivors share a key. */
  lemma {:induction false} SurvivorsDistinct(events: seq<Event>, ids: set<string>)
    requires Keyed(events)
    ensures DistinctKeys(Survivors(events, ids))
  {
    if events != [] {
      var n := |events| - 1;
      var prefix := events[..n];
      var e := events[n];
      var survivors := Survivors(prefix, ids);
      SurvivorsDistinct(prefix, ids);
      if !IsDuplicateAt(events, n) && Key(e) in ids {
        assert Survivors(events, ids) == survivors + [e];
        SurvivorKeys(prefix, ids);
        assert Key(e) !in KeySet(prefix);
        KeySetSnoc([], e);
        assert [] + [e] == [e];
        DistinctKeysConcat(survivors, [e]);
      } else {
        assert Survivors(events, ids) == survivors;
      }
    }
  }

  /** Every stale first occurrence has a key that is not live. */
  lemma {:induction false} StaleFirstOccurrencesAreStale(events: seq<Event>, ids: set<string>)
    requires Keyed(events)
    ensures forall e :: e in StaleFirstOccurrences(events, ids) ==> MakeGoogleEventKey(e).Success? && Key(e) !in ids
  {
    if events != [] {
      StaleFirstOccurrencesAreStale(events[..|events| - 1], ids);
    }
  }

  /** When every listed key is live, no first occurrence is stale. */
  lemma {:induction false} AllLiveMeansNoneStale(events: seq<Event>, ids: set<string>)
    requires Keyed(events)
    requires forall i :: 0 <= i < |events| ==> Key(events[i]) in ids
    ensures StaleFirstOccurrences(events, ids) == []
  {
    if events != [] {
      var n := |events| - 1;
      AllLiveMeansNoneStale(events[..n], ids);
      assert Key(events[n]) in ids;
    }
  }

  /** Every listed event whose key is not live is a duplicate or a stale first occurrence. */
  lemma NotLiveIsDeleted(events: seq<Event>, ids: set<string>)
    requires Keyed(events)
    ensures forall i :: 0 <= i < |events| && Key(events[i]) !in ids ==>
      events[i] in Duplicates(events) + StaleFirstOccurrences(events, ids)
  {
    DeletesPartition(events, ids);
    SurvivorsAreLive(events, ids);
    forall i | 0 <= i < |events| && Key(events[i]) !in ids
      ensures events[i] in Duplicates(events) + StaleFirstOccurrences(events, ids)
    {
      assert events[i] in multiset(events);
      assert events[i] !in multiset(Survivors(events, ids));
    }
  }

  // ----- the pass -----

  /** What one pass does: abort, do nothing, or send these creates and then these deletes. */
  datatype SyncOutcome = Aborted | NoAction | Writes(creates: seq<Event>, deletes: seq<Event>)

  /** The specification of one pass over listed events and a fetched report. */
  function SyncPlan(googleEventList: seq<Event>, workdayRootObject: WorkdayRootObject): SyncOutcome
  {
    if !Keyed(googleEventList) then Aborted
    else if |workdayRootObject.reportEntry| == 0 then NoAction
    else
      var dict := Index(googleEventList);
      var periods := ReportPeriods(workdayRootObject.reportEntry);
      IndexKeys(googleEventList);
      Writes(Creates(dict, periods), Duplicates(googleEventList) + EventsNotInWorkday(dict, LiveIds(periods)))
  }

  /**
   * `SyncWorkdayAndGoogle`: index the listed events (an event without dates
   * aborts the pass), stop on an empty report, then compute all creates
   * (and so the complete live-id set) before the deletes.
   */
  method SyncWorkdayAndGoogle(googleEventList: seq<Event>, workdayRootObject: WorkdayRootObject)
    returns (r: SyncOutcome)
    ensures r == SyncPlan(googleEventList, workdayRootObject)
  {
    var googleEventsDictionary := BuildEventDictionary(googleEventList);
    if googleEventsDictionary.Failure? {
      return Aborted;
    }
    var workdayNameDateIds: set<string> := {};
    if |workdayRootObject.reportEntry| == 0 {
      return NoAction;
    }
    var toCreate;
    toCreate, workdayNameDateIds := GenerateGoogleEventsUsingWorkdayEntries(
      googleEventsDictionary.value, workdayNameDateIds, workdayRootObject);
    IndexKeys(googleEventList);
    ghost var periods := ReportPeriods(workdayRootObject.reportEntry);
    assert workdayNameDateIds == LiveIds(periods);
    var toDelete := GetGoogleEventsToDelete(googleEventList, googleEventsDictionary.value, workdayNameDateIds);
    assert toDelete.Success?;
    r := Writes(toCreate, toDelete.value);
  }
}
