/**
 * The records the reconciliation pass reads and writes: the Workday report
 * (`WorkdayRootObject`, `ReportEntry`, `TimeOffRequestGroup`) and the Google
 * Calendar event (`Event`, `EventDateTime`). A C# reference that may be null
 * is an `Option`.
 */
module Models {
  import opened Wrappers
  import opened Dates

  /** One leave day of one employee: `Time_Off_Entry` and `Time_Off_Type`. */
  datatype TimeOffRequestGroup = TimeOffRequestGroup(entry: Day, timeOffType: string)

  /** One employee's row: `Name` and the (possibly null) `Time_Off_Request_group` list. */
  datatype ReportEntry = ReportEntry(name: string, requestGroup: Option<seq<TimeOffRequestGroup>>)

  /** The whole Workday report: its `Report_Entry` list. */
  datatype WorkdayRootObject = WorkdayRootObject(reportEntry: seq<ReportEntry>)

  /** An event's start or end: the all-day `Date` text, or a `DateTime` (kept to its day). */
  datatype EventDateTime = EventDateTime(date: Option<string>, dateTime: Option<Day>)

  /** A calendar event, with the fields the pass reads or sets. */
  datatype Event = Event(
    id: Option<string>,
    summary: Option<string>,
    location: Option<string>,
    start: Option<EventDateTime>,
    end: Option<EventDateTime>)
}
