# WorkdayCalendarSync reconciliation pass, in Dafny

WorkdayCalendarSync keeps a shared Google out-of-office calendar in step with the
time-off report of Workday. Once an hour, `SyncingService.SyncWorkdayAndGoogle`
runs one reconciliation pass:

1. it lists the calendar's out-of-office events;
2. it indexes them by a content key (summary, start text, end text), keeping the first event of each key;
3. it fetches the report;
4. it merges each employee's leave days into periods of consecutive days with one leave type;
5. it gives each period an identity `name - type start end` and records it as live;
6. it creates an all-day event for each period whose identity is not yet a content key;
7. finally it deletes the calendar's duplicates and the events whose content key is no longer live.

This project models that pass as a computation from two snapshots, the listed
events and the fetched report, to the events to create and the events to
delete. It proves what the pass guarantees.

Modules, one per concern of the source:

- `Wrappers`: `Option` for C# references that may be null; `Result` for calls that may throw.
- `Dates`: a calendar day as a number of days since 0001-01-01, and its `yyyy-MM-dd` text.
- `Models`: the report (`WorkdayRootObject`, `ReportEntry`, `TimeOffRequestGroup`) and the calendar event (`Event`, `EventDateTime`).
- `WorkdayExtractor`: the identity string of a period, and the empty report a failed fetch returns.
- `GoogleCalendarApi`: the out-of-office listing filter, its constants, `Batch`, which cuts a request list into batches of a given size, and `BatchRequests`, which applies it with the limit of 500 requests per batch.
- `PeriodMerger`: `FindTimeOffPeriods` and the maximal runs it walks through.
- `EventIndex`: content keys, the first-wins dictionary (`BuildEventDictionary`) and the duplicate finder (`FindDuplicateGoogleEvents`).
- `SyncingService`:
  - the create step (`CreateGoogleEventFromWorkdayEntries`, `GenerateGoogleEventsUsingWorkdayEntries`);
  - the delete step (`GetGoogleEventsToDelete`);
  - the pass itself (`SyncWorkdayAndGoogle`);
  - the specification `SyncPlan` the pass is proved against.
- `SyncProperties`: the end-to-end guarantees of a pass, stated on `SyncPlan`.
- `Seqs`: sequence helpers (flattening and flat-map).

The loops of the source are methods with loop invariants:

- the dictionary and duplicate walks;
- the run finder;
- the batcher;
- the two nested loops of the create step.

Each loop except `Batch` is proved equal to a recursive specification function, and the lemmas state what that function means. `Batch` is proved directly against the properties its callers rely on: the round trip, the batch sizes and the batch count.

## Model

| member | source | states |
|---|---|---|
| `WorkdayExtractor.GetEventId` | WorkdayCalendarSync/ExtractAndUpdate/WorkdayExtractor.cs:46-49 | the identity is exactly as long as name, type, start and end together plus the five separator characters |
| `WorkdayExtractor.GetEventIdLayout` | WorkdayCalendarSync/ExtractAndUpdate/WorkdayExtractor.cs:48 | the identity starts with the event summary `name - type` and continues with a space, the start, a space and the end |
| `WorkdayExtractor.FetchFailedReport` | WorkdayCalendarSync/ExtractAndUpdate/WorkdayExtractor.cs:36-41 | the report returned when the fetch throws has no entries |
| `GoogleCalendarApi.EventContainsOutOfOfficeString` | WorkdayCalendarSync/ExtractAndUpdate/GoogleCalendarAPI.cs:121-124 | no contract of its own: a non-null summary containing one of the four texts; what filtering by it keeps is stated by `GoogleCalendarApi.FilterOutOfOfficeEvents` and `SyncingService.PeriodEventIsListed` |
| `GoogleCalendarApi.FilterOutOfOfficeEvents` | WorkdayCalendarSync/ExtractAndUpdate/GoogleCalendarAPI.cs:112 | an event is kept if and only if its summary is non-null and contains one of the four out-of-office texts; the result is never longer than the page |
| `GoogleCalendarApi.FilterPages` | WorkdayCalendarSync/ExtractAndUpdate/GoogleCalendarAPI.cs:112-115 | filtering page by page and concatenating equals filtering the whole listing, so the kept events stay in listing order |
| `GoogleCalendarApi.Batch` | WorkdayCalendarSync/ExtractAndUpdate/GoogleCalendarAPI.cs:152-162 | for a positive size, the batches concatenated give back the input; every batch is non-empty and at most the size; all but the last have exactly the size; there are ceiling(n / size) of them; a non-positive size gives no batch |
| `GoogleCalendarApi.BatchRequests` | WorkdayCalendarSync/ExtractAndUpdate/GoogleCalendarAPI.cs:128 | the requests sent by the add and delete calls are cut into batches that concatenate back to the requests, hold between 1 and 500 requests each, are full except the last, and number ceiling(n / 500) |
| `PeriodMerger.FindTimeOffPeriods` | WorkdayCalendarSync/Services/SyncingService.cs:124-137 | the enumerator walk returns exactly the (first, last) pairs of the maximal runs of the list, in order |
| `PeriodMerger.RequestsAreSequential` | WorkdayCalendarSync/Services/SyncingService.cs:139-142 | no contract of its own: the day is exactly one after the other's, with the same type; what it makes of a run is stated by `PeriodMerger.RunsAreRuns`, `PeriodMerger.RunsAreMaximal` and `PeriodMerger.RunSpan` |
| `PeriodMerger.RunsAreRuns` | WorkdayCalendarSync/Services/SyncingService.cs:128-133 | every run is non-empty, and inside a run each entry is the day after the previous one with the same type |
| `PeriodMerger.RunsPartition` | WorkdayCalendarSync/Services/SyncingService.cs:126-136 | the runs concatenated in order give back the request list |
| `PeriodMerger.RunsAreMaximal` | WorkdayCalendarSync/Services/SyncingService.cs:132 | the first entry of a run never continues the last entry of the run before it |
| `PeriodMerger.RunEndsOfRuns` | WorkdayCalendarSync/Services/SyncingService.cs:130-134 | there is one (first, last) pair per run, and it holds that run's first and last entry |
| `PeriodMerger.RunSpan` | WorkdayCalendarSync/Services/SyncingService.cs:139-142 | along a run the day grows by exactly one per entry and the type stays that of the first entry |
| `EventIndex.DateStringFromEventDateTime` | WorkdayCalendarSync/Services/SyncingService.cs:208-222 | succeeds if and only if the start/end is present and has a date or a date-time; gives the `Date` text when present, else the formatted date-time |
| `EventIndex.MakeGoogleEventKey` | WorkdayCalendarSync/Services/SyncingService.cs:203-206 | succeeds if and only if both dates can be read; the key is the summary, the start text and the end text, separated by single spaces |
| `EventIndex.BuildEventDictionary` | WorkdayCalendarSync/Services/SyncingService.cs:88-100 | fails if and only if some listed event has no key; otherwise returns the first-wins index of the listing |
| `EventIndex.FindDuplicateGoogleEvents` | WorkdayCalendarSync/Services/SyncingService.cs:187-201 | fails if and only if some event has no key; otherwise returns, in order, exactly the events whose key occurred earlier in the list |
| `EventIndex.IndexKeys` | WorkdayCalendarSync/Services/SyncingService.cs:91-97 | the dictionary's keys are exactly the content keys of the listing, each recorded once |
| `EventIndex.IndexFirstWins` | WorkdayCalendarSync/Services/SyncingService.cs:94-97 | each key maps to the first listed event that has it |
| `EventIndex.DuplicatesPartition` | WorkdayCalendarSync/Services/SyncingService.cs:191-199 | duplicates and first occurrences together are the listing, each event counted once |
| `EventIndex.DuplicateCount` | WorkdayCalendarSync/Services/SyncingService.cs:191-199 | there are as many first occurrences as distinct keys, and as many duplicates as the listing length minus that number |
| `EventIndex.NoDuplicatesMeansNone` | WorkdayCalendarSync/Services/SyncingService.cs:194-197 | a listing in which no event repeats an earlier key yields no duplicate |
| `SyncingService.PeriodEventKeyIsId` | WorkdayCalendarSync/Services/SyncingService.cs:151-168 | the content key of a created event is, character for character, the identity it was created under |
| `SyncingService.PeriodEventIsListed` | WorkdayCalendarSync/Services/SyncingService.cs:164 | an event created for a leave type that is one of the out-of-office texts passes the listing filter |
| `SyncingService.CreateGoogleEventFromWorkdayEntries` | WorkdayCalendarSync/Services/SyncingService.cs:144-175 | always records the period's identity as live; returns an event if and only if the identity is not a dictionary key; that event is the period's all-day event with summary `name - type`, location "Out of Office", and the start and adjusted end as dates |
| `SyncingService.AdjustedEnd` | WorkdayCalendarSync/Services/SyncingService.cs:146-149 | no contract of its own: an end a day or more after the start moves one day later; its effect on a run is stated by `SyncingService.RunPeriodEnd` |
| `SyncingService.RunPeriodEnd` | WorkdayCalendarSync/Services/SyncingService.cs:146-149 | a one-day run keeps its day as end, a longer run ends the day after its last day; the period's type is the type the whole run shares |
| `SyncingService.EntryPeriodsAreRunPeriods` | WorkdayCalendarSync/Services/SyncingService.cs:109-113 | an entry's periods are those of the maximal runs of its request list, one per run, left to right |
| `SyncingService.NullRequestGroupContributesNothing` | WorkdayCalendarSync/Services/SyncingService.cs:107 | an entry whose request group is null adds no period wherever it stands in the report |
| `SyncingService.CreateForPair` | WorkdayCalendarSync/Services/SyncingService.cs:111-117 | one turn of the inner loop extends the created events and the live ids of the periods before it by those of this period |
| `SyncingService.CreateForPairs` | WorkdayCalendarSync/Services/SyncingService.cs:109-118 | the inner loop over one employee's (first, last) pairs extends the created events and live ids by those of the employee's periods |
| `SyncingService.GenerateForEntry` | WorkdayCalendarSync/Services/SyncingService.cs:107-119 | one report entry contributes the creates and the identities of its periods, and nothing when its request group is null |
| `SyncingService.GenerateGoogleEventsUsingWorkdayEntries` | WorkdayCalendarSync/Services/SyncingService.cs:103-121 | returns the creates of all periods of the report in order, and the live-id set grown by all of their identities |
| `SyncingService.LiveIdsHasAll` | WorkdayCalendarSync/Services/SyncingService.cs:151-152 | the identity of every period is live |
| `SyncingService.LiveIdsHasOnly` | WorkdayCalendarSync/Services/SyncingService.cs:151-152 | every live id is the identity of some period |
| `SyncingService.CreatesHasAll` | WorkdayCalendarSync/Services/SyncingService.cs:154-171 | every period whose identity is not a dictionary key has its event created |
| `SyncingService.CreatesHasOnly` | WorkdayCalendarSync/Services/SyncingService.cs:154-174 | every created event is the event of a period whose identity is not a dictionary key |
| `SyncingService.AllKnownMeansNoneCreated` | WorkdayCalendarSync/Services/SyncingService.cs:154 | when every identity is already a dictionary key, nothing is created |
| `SyncingService.CreatedKeysAreNewIds` | WorkdayCalendarSync/Services/SyncingService.cs:151-168 | every created event has a content key, and that key is a live identity that is not a dictionary key |
| `SyncingService.CreatesKeys` | WorkdayCalendarSync/Services/SyncingService.cs:151-171 | the content keys of the created events are exactly the live identities that are not dictionary keys |
| `SyncingService.CreatesUpToDistinct` | WorkdayCalendarSync/Services/SyncingService.cs:152-154 | when no two periods share an identity, no two created events share a content key |
| `SyncingService.CreatesAreNew` | WorkdayCalendarSync/Services/SyncingService.cs:154 | no created event is among the listed events, and none has a listed content key |
| `SyncingService.GetGoogleEventsToDelete` | WorkdayCalendarSync/Services/SyncingService.cs:177-185 | fails if and only if some listed event has no key; otherwise gives the duplicates followed by the dictionary's events whose key is not live, in dictionary order |
| `SyncingService.EventsNotInWorkday` | WorkdayCalendarSync/Services/SyncingService.cs:180-182 | no contract of its own: the dictionary's events whose key is not live, in dictionary order; which listed events these are is stated by `SyncingService.EventsNotInWorkdayAreStaleFirstOccurrences` |
| `SyncingService.EventsNotInWorkdayAreStaleFirstOccurrences` | WorkdayCalendarSync/Services/SyncingService.cs:180-182 | the dictionary's events whose key is not live are the first occurrences of the listing with a non-live key, in listing order |
| `SyncingService.FirstOccurrencesSplit` | WorkdayCalendarSync/Services/SyncingService.cs:180-182 | the stale first occurrences and the survivors divide the first occurrences, each counted once |
| `SyncingService.DeletesPartition` | WorkdayCalendarSync/Services/SyncingService.cs:177-185 | duplicates, stale first occurrences and survivors divide the listing, each event counted once |
| `SyncingService.SurvivorsAreLive` | WorkdayCalendarSync/Services/SyncingService.cs:181 | every event left standing is a listed event whose key is live |
| `SyncingService.SurvivorKeys` | WorkdayCalendarSync/Services/SyncingService.cs:181 | the keys left standing are exactly the listed keys that are live |
| `SyncingService.SurvivorsDistinct` | WorkdayCalendarSync/Services/SyncingService.cs:179-181 | no two events left standing share a key |
| `SyncingService.StaleFirstOccurrencesAreStale` | WorkdayCalendarSync/Services/SyncingService.cs:181 | every deleted first occurrence has a key that is not live |
| `SyncingService.AllLiveMeansNoneStale` | WorkdayCalendarSync/Services/SyncingService.cs:181 | when every listed key is live, no first occurrence is deleted |
| `SyncingService.NotLiveIsDeleted` | WorkdayCalendarSync/Services/SyncingService.cs:177-185 | every listed event whose key is not live is deleted |
| `SyncingService.SyncWorkdayAndGoogle` | WorkdayCalendarSync/Services/SyncingService.cs:62-86 | the pass aborts on an event without dates, does nothing on an empty report, and otherwise writes the creates computed first and the deletes computed from the complete live-id set, as `SyncPlan` specifies |
| `SyncProperties.UnkeyedListingAborts` | WorkdayCalendarSync/Services/SyncingService.cs:68-69 | a listing holding an event without any date aborts the pass before any write |
| `SyncProperties.FailedFetchWritesNothing` | WorkdayCalendarSync/Services/SyncingService.cs:72-77 | a failed report fetch never creates or deletes anything |
| `SyncProperties.PlanDeletes` | WorkdayCalendarSync/Services/SyncingService.cs:80 | the deletes of a pass are the duplicates followed by the stale first occurrences |
| `SyncProperties.DeletesAreStaleOrDuplicate` | WorkdayCalendarSync/Services/SyncingService.cs:177-185 | deletes and survivors together are exactly the listing, so only listed events are deleted and none twice; survivors have live keys; every listed event with a non-live key is deleted |
| `SyncProperties.EveryPeriodHasAnEvent` | WorkdayCalendarSync/Services/SyncingService.cs:151-171 | every period's identity is already a listed content key or its event is created, and no created event is already listed |
| `SyncProperties.CreatesAreNotDeleted` | WorkdayCalendarSync/Services/SyncingService.cs:79-80 | no event the pass creates is among those it deletes |
| `SyncProperties.InStepCalendarIsLeftAlone` | WorkdayCalendarSync/Services/SyncingService.cs:154 | a listing without repeated keys whose keys are exactly the live identities gives a pass that creates and deletes nothing |
| `SyncProperties.FirstPassConverges` | WorkdayCalendarSync/Services/SyncingService.cs:79-80 | when no two periods share an identity, the calendar a pass leaves behind (survivors, then creates) makes the next pass over the same report create and delete nothing |
| `Dates.Format` | WorkdayCalendarSync/Services/SyncingService.cs:151 | the `yyyy-MM-dd` text of a day has at least ten characters, all of them digits or dashes, so a date never contains the space that separates the parts of a key |

## Left out

- Hosting, the hourly timer, `Task.Run`, `async void` and start/stop are left out. The model is one pass and has no concurrency.
- The HTTP fetch of the report and its JSON reading are left out. The report is an input; only the empty report of a failed fetch is modelled.
- The listing of calendar pages by page token is left out. The listing is an input; the per-page filter and its order are modelled.
- The queuing and execution of batch requests and the credential file are left out. The pass returns the create and delete lists that would be sent.
- Logging and the catch-and-log handlers are left out. An exception is a `Result` failure, and a failure ends the pass as `Aborted`.
- Exception messages are constants. The null-reference exception of a missing start or end is reduced to its message.
- Time of day and `TimeSpan.TotalDays` as a double are not modelled. A date is a whole day number, so a difference of one day is the integer 1.
- `AddDays` overflow past 9999-12-31 is not modelled, because day numbers are unbounded.
- `GoogleCalendarApi.Batch`: the product `batches * batchSize` is an unbounded integer in the model. In the source it is a 32-bit `int` that wraps negative once it passes 2147483647, and `Skip` of a negative count returns the whole list, so the source would then yield batches forever. The model terminates and returns the exact batches for every positive size. The difference needs a list of about 2^31 elements.
- Null strings for names, types and a null `Report_Entry` list are not modelled. A null summary of a listed event is kept, and it reads as the empty string in a key.
- Lazy `yield` evaluation is made strict. The creates, and with them the complete live-id set, are computed before the deletes, as the `.ToList()` of the source forces.
- A `Dictionary` is modelled as its entries plus its keys in insertion order. That is its enumeration order when no key is ever removed.
- The live-id `HashSet` is passed into and out of the create methods as a value rather than mutated through a shared reference.
- The two nested loops of the create step are split into one method per loop body. The ghost parameters of those methods say which periods come before.
- Whether created events are listed again by the next pass depends on the filter: an event is kept only if its summary contains an out-of-office text. `SyncProperties.FirstPassConverges` describes the calendar the pass leaves, not what the filter lists from it.
- `SyncProperties.FirstPassConverges`: requires that no two periods of the report share an identity. When two periods share one, both are created in the same pass because the dictionary is not updated during it, and the next pass deletes one of them as a duplicate.
- `Dates.Format`: states only the length of the text and that it is made of digits and dashes. It is a concrete Gregorian `yyyy-MM-dd` formatter, and no property of the pass depends on which day gives which text.
- Identities are not proved injective. A name or a type containing `" - "` or spaces can make two periods share one identity.
