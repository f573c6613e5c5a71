/**
 * The pure part of the Workday adapter: the identity string of a time-off
 * period, and the report that a failed fetch degrades to.
 */
module WorkdayExtractor {
  import opened Models

  /**
   * Identity of a time-off period: employee, type, start and end texts
   * (the dates in yyyy-MM-dd form). It is laid out as the period's event
   * summary `employeeName - eventType`, a space, the start, a space, the end.
   */
  function GetEventId(employeeName: string, eventType: string, startTimeOffEntry: string, endTimeOffEntry: string): (id: string)
    ensures |id| == |employeeName| + |eventType| + |startTimeOffEntry| + |endTimeOffEntry| + 5
  {
    employeeName + " - " + eventType + " " + startTimeOffEntry + " " + endTimeOffEntry
  }

  /** The identity starts with the event summary and ends with the two dates, each after a space. */
  lemma GetEventIdLayout(employeeName: string, eventType: string, startTimeOffEntry: string, endTimeOffEntry: string)
    ensures var id := GetEventId(employeeName, eventType, startTimeOffEntry, endTimeOffEntry);
      && id[..|employeeName| + 3 + |eventType|] == employeeName + " - " + eventType
      && id[|employeeName| + 3 + |eventType|..] == " " + startTimeOffEntry + " " + endTimeOffEntry
  {
  }

  /** The report returned when the HTTP fetch or its reading throws: no entries at all. */
  function FetchFailedReport(): (r: WorkdayRootObject)
    ensures |r.reportEntry| == 0
  {
    WorkdayRootObject([])
  }
}
