/**
 * What one reconciliation pass guarantees, stated on its specification
 * `SyncPlan`: which failures write nothing, that deletes only remove listed
 * events and remove every stale one, that every period ends up with an
 * event, and that a calendar already in step with the report is left alone.
 */
module SyncProperties {
  import opened Models
  import opened WorkdayExtractor
  import opened EventIndex
  import opened SyncingService

  /** A listing with an event that has no date aborts the pass before any write. */
  lemma UnkeyedListingAborts(events: seq<Event>, report: WorkdayRootObject)
    requires exists i :: 0 <= i < |events| && !MakeGoogleEventKey(events[i]).Success?
    ensures SyncPlan(events, report) == Aborted
  {
  }

  /** A failed Workday fetch yields an empty report, so the pass writes nothing. */
  lemma FailedFetchWritesNothing(events: seq<Event>)
    ensures !SyncPlan(events, FetchFailedReport()).Writes?
  {
  }

  /** The deletes of a pass that writes: the duplicates, then the stale first occurrences. */
  lemma PlanDeletes(events: seq<Event>, report: WorkdayRootObject)
    requires Keyed(events) && |report.reportEntry| > 0
    ensures SyncPlan(events, report).Writes?
    ensures SyncPlan(events, report).deletes
      == Duplicates(events) + StaleFirstOccurrences(events, LiveIds(ReportPeriods(report.reportEntry)))
  {
    EventsNotInWorkdayAreStaleFirstOccurrences(events, LiveIds(ReportPeriods(report.reportEntry)));
  }

  /**
   * With the survivors the deletes make up the listing exactly, so nothing
   * outside the listing is deleted and nothing is deleted twice; the
   * survivors all have live keys, and every listed event whose key is not
   * live is deleted.
   */
  lemma DeletesAreStaleOrDuplicate(events: seq<Event>, report: WorkdayRootObject)
    requires Keyed(events) && |report.reportEntry| > 0
    ensures SyncPlan(events, report).Writes?
    ensures
      var live := LiveIds(ReportPeriods(report.reportEntry));
      multiset(SyncPlan(events, report).deletes) + multiset(Survivors(events, live)) == multiset(events)
    ensures
      var live := LiveIds(ReportPeriods(report.reportEntry));
      forall e :: e in Survivors(events, live) ==> MakeGoogleEventKey(e).Success? && Key(e) in live
    ensures
      var live := LiveIds(ReportPeriods(report.reportEntry));
      forall i :: 0 <= i < |events| && Key(events[i]) !in live ==> events[i] in SyncPlan(events, report).deletes
  {
    var live := LiveIds(ReportPeriods(report.reportEntry));
    PlanDeletes(events, report);
    DeletesPartition(events, live);
    SurvivorsAreLive(events, live);
    NotLiveIsDeleted(events, live);
  }

  /**
   * Every period of the report ends up with an event: its identity is
   * already the content key of a listed event, or its event is created;
   * and no created event is already listed.
   */
  lemma EveryPeriodHasAnEvent(events: seq<Event>, report: WorkdayRootObject)
    requires Keyed(events) && |report.reportEntry| > 0
    ensures SyncPlan(events, report).Writes?
    ensures
      var periods := ReportPeriods(report.reportEntry);
      forall i :: 0 <= i < |periods| ==>
        PeriodId(periods[i]) in KeySet(events) || PeriodEvent(periods[i]) in SyncPlan(events, report).creates
    ensures forall e :: e in SyncPlan(events, report).creates ==> e !in events
  {
    var periods := ReportPeriods(report.reportEntry);
    IndexKeys(events);
    CreatesHasAll(Index(events), periods);
    CreatesAreNew(events, periods);
  }

  /** No event the pass creates is among those it deletes. */
  lemma CreatesAreNotDeleted(events: seq<Event>, report: WorkdayRootObject)
    requires Keyed(events) && |report.reportEntry| > 0
    ensures SyncPlan(events, report).Writes?
    ensures forall e :: e in SyncPlan(events, report).creates ==> e !in SyncPlan(events, report).deletes
  {
    var plan := SyncPlan(events, report);
    DeletesAreStaleOrDuplicate(events, report);
    EveryPeriodHasAnEvent(events, report);
    forall e | e in plan.deletes
      ensures e in events
    {
      assert e in multiset(plan.deletes);
      assert e in multiset(events);
    }
  }

  /**
   * A listing whose content keys are distinct and are exactly the live
   * identities of the report gives a pass that creates and deletes nothing.
   */
  lemma InStepCalendarIsLeftAlone(events: seq<Event>, report: WorkdayRootObject)
    requires Keyed(events) && |report.reportEntry| > 0
    requires forall i :: 0 <= i < |events| ==> !IsDuplicateAt(events, i)
    requires KeySet(events) == LiveIds(ReportPeriods(report.reportEntry))
    ensures SyncPlan(events, report) == Writes([], [])
  {
    var periods := ReportPeriods(report.reportEntry);
    PlanDeletes(events, report);
    NoDuplicatesMeansNone(events);
    KeySetMembers(events);
    AllLiveMeansNoneStale(events, LiveIds(periods));
    IndexKeys(events);
    LiveIdsHasAll(periods);
    AllKnownMeansNoneCreated(Index(events), periods, |periods|);
  }

  /**
   * When no two periods of the report share an identity, the calendar the
   * pass leaves behind (the survivors, then the created events) has
   * distinct keys that are exactly the live identities, so a second pass
   * over the same report creates and deletes nothing.
   */
  lemma FirstPassConverges(events: seq<Event>, report: WorkdayRootObject)
    requires Keyed(events) && |report.reportEntry| > 0
    requires
      var periods := ReportPeriods(report.reportEntry);
      forall i, j :: 0 <= i < j < |periods| ==> PeriodId(periods[i]) != PeriodId(periods[j])
    ensures SyncPlan(events, report).Writes?
    ensures
      var next := Survivors(events, LiveIds(ReportPeriods(report.reportEntry))) + SyncPlan(events, report).creates;
      Keyed(next) && SyncPlan(next, report) == Writes([], [])
  {
    var periods := ReportPeriods(report.reportEntry);
    var live := LiveIds(periods);
    var survivors := Survivors(events, live);
    var created := Creates(Index(events), periods);
    IndexKeys(events);
    SurvivorKeys(events, live);
    SurvivorsDistinct(events, live);
    CreatesKeys(Index(events), periods);
    CreatesUpToDistinct(Index(events), periods, |periods|);
    assert KeySet(survivors) == KeySet(events) * live;
    assert KeySet(created) == live - KeySet(events);
    DistinctKeysConcat(survivors, created);
    KeySetConcat(survivors, created);
    var next := survivors + created;
    assert KeySet(next) == live;
    DistinctKeysMeansNoRepeat(next);
    InStepCalendarIsLeftAlone(next, report);
  }
}
