/**
 * The calendar-state indexer of the reconciliation pass: the content key of
 * an existing event (summary, start text, end text), the dictionary from each
 * content key to the first event that has it, and the list of later events
 * that repeat a key already seen (the duplicates).
 */
module EventIndex {
  import opened Wrappers
  import opened Dates
  import opened Models

  /** Message of the exception thrown for a start or end without any date. */
  const NoDateInformation: string := "EventDateTime object has no date information"

  /** Message of the exception thrown when a null start or end is dereferenced. */
  const NullReference: string := "Object reference not set to an instance of an object."

  /**
   * `DateStringFromEventDateTime`: the all-day `Date` text when there is one,
   * otherwise the `DateTime` formatted as yyyy-MM-dd; an exception when
   * neither is set (or the start/end itself is null).
   */
  function DateStringFromEventDateTime(edt: Option<EventDateTime>): (r: Result<string>)
    ensures r.Success? <==> edt.Some? && (edt.value.date.Some? || edt.value.dateTime.Some?)
    ensures r.Success? && edt.value.date.Some? ==> r.value == edt.value.date.value
    ensures r.Success? && edt.value.date.None? ==> r.value == Format(edt.value.dateTime.value)
  {
    match edt
    case None => Failure(NullReference)
    case Some(dt) =>
      if dt.date.Some? then Success(dt.date.value)
      else if dt.dateTime.Some? then Success(Format(dt.dateTime.value))
      else Failure(NoDateInformation)
  }

  /** C# string concatenation reads a null string as the empty one. */
  function Text(s: Option<string>): string
  {
    if s.Some? then s.value else ""
  }

  /** `MakeGoogleEventKey`: summary, start text and end text, separated by single spaces. */
  function MakeGoogleEventKey(e: Event): (r: Result<string>)
    ensures r.Success? <==> DateStringFromEventDateTime(e.start).Success? && DateStringFromEventDateTime(e.end).Success?
    ensures r.Success? ==>
      r.value == Text(e.summary) + " " + DateStringFromEventDateTime(e.start).value + " " + DateStringFromEventDateTime(e.end).value
  {
    var startText := DateStringFromEventDateTime(e.start);
    var endText := DateStringFromEventDateTime(e.end);
    if startText.Failure? then Failure(startText.error)
    else if endText.Failure? then Failure(endText.error)
    else Success(Text(e.summary) + " " + startText.value + " " + endText.value)
  }

  /** Every event of the list has a content key (no exception while indexing it). */
  predicate Keyed(events: seq<Event>)
  {
    forall i :: 0 <= i < |events| ==> MakeGoogleEventKey(events[i]).Success?
  }

  function Key(e: Event): string
    requires MakeGoogleEventKey(e).Success?
  {
    MakeGoogleEventKey(e).value
  }

  /** The content keys occurring in the list. */
  function KeySet(events: seq<Event>): set<string>
    requires Keyed(events)
  {
    if events == [] then {} else KeySet(events[..|events| - 1]) + {Key(events[|events| - 1])}
  }

  /** The event at `i` repeats a content key that an earlier event already has. */
  predicate IsDuplicateAt(events: seq<Event>, i: nat)
    requires Keyed(events) && i < |events|
  {
    Key(events[i]) in KeySet(events[..i])
  }

  /** In order, the events whose content key occurred earlier in the list. */
  function Duplicates(events: seq<Event>): seq<Event>
    requires Keyed(events)
  {
    if events == [] then [] else
      var n := |events| - 1;
      Duplicates(events[..n]) + (if IsDuplicateAt(events, n) then [events[n]] else [])
  }

  /** In order, the events that are the first with their content key. */
  function FirstOccurrences(events: seq<Event>): seq<Event>
    requires Keyed(events)
  {
    if events == [] then [] else
      var n := |events| - 1;
      FirstOccurrences(events[..n]) + (if IsDuplicateAt(events, n) then [] else [events[n]])
  }

  /**
   * A `Dictionary<string, Event>`: its entries, and its keys in the order
   * they were added (the order in which a dictionary that never had a key
   * removed enumerates its pairs).
   */
  datatype EventDictionary = EventDictionary(order: seq<string>, entries: map<string, Event>)

  /** The keys in `order` are those of `entries`, each once. */
  ghost predicate ValidDictionary(d: EventDictionary)
  {
    && (forall i, j :: 0 <= i < j < |d.order| ==> d.order[i] != d.order[j])
    && (forall k :: k in d.entries <==> k in d.order)
  }

  /** The dictionary `BuildEventDictionary` fills: each content key, first event wins. */
  function Index(events: seq<Event>): EventDictionary
    requires Keyed(events)
  {
    if events == [] then EventDictionary([], map[]) else
      var n := |events| - 1;
      var d := Index(events[..n]);
      var k := Key(events[n]);
      if k in d.entries then d else EventDictionary(d.order + [k], d.entries[k := events[n]])
  }

  /**
   * `BuildEventDictionary`: adds each event under its content key unless the
   * key is already present; an event without date information aborts it.
   */
  method BuildEventDictionary(events: seq<Event>) returns (r: Result<EventDictionary>)
    ensures r.Success? <==> Keyed(events)
    ensures r.Success? ==> r.value == Index(events)
  {
    var dict := EventDictionary([], map[]);
    var i := 0;
    while i < |events|
      invariant 0 <= i <= |events|
      invariant Keyed(events[..i])
      invariant dict == Index(events[..i])
    {
      var key := MakeGoogleEventKey(events[i]);
      if key.Failure? {
        return Failure(key.error);
      }
      assert events[..i + 1][..i] == events[..i];
      if key.value !in dict.entries {
        dict := EventDictionary(dict.order + [key.value], dict.entries[key.value := events[i]]);
      }
      i := i + 1;
    }
    assert events[..i] == events;
    r := Success(dict);
  }

  /** Walking one more keyed event adds its key, and adds the event to the duplicates when its key was seen. */
  lemma DuplicatesStep(events: seq<Event>, i: nat)
    requires i < |events| && Keyed(events[..i]) && MakeGoogleEventKey(events[i]).Success?
    ensures Keyed(events[..i + 1])
    ensures KeySet(events[..i + 1]) == KeySet(events[..i]) + {Key(events[i])}
    ensures Duplicates(events[..i + 1])
      == Duplicates(events[..i]) + (if Key(events[i]) in KeySet(events[..i]) then [events[i]] else [])
  {
    assert events[..i + 1] == events[..i] + [events[i]];
    assert events[..i + 1][..i] == events[..i];
  }

  /**
   * `FindDuplicateGoogleEvents`: walks the list with the set of keys seen so
   * far and keeps each event whose key is already in it.
   */
  method FindDuplicateGoogleEvents(events: seq<Event>) returns (r: Result<seq<Event>>)
    ensures r.Success? <==> Keyed(events)
    ensures r.Success? ==> r.value == Duplicates(events)
  {
    var processed: set<string> := {};
    var duplicates: seq<Event> := [];
    var i := 0;
    while i < |events|
      invariant 0 <= i <= |events|
      invariant Keyed(events[..i])
      invariant processed == KeySet(events[..i])
      invariant duplicates == Duplicates(events[..i])
    {
      var key := MakeGoogleEventKey(events[i]);
      if key.Failure? {
        return Failure(key.error);
      }
      DuplicatesStep(events, i);
      if key.value in processed {
        duplicates := duplicates + [events[i]];
      }
      processed := processed + {key.value};
      i := i + 1;
    }
    assert events[..i] == events;
    r := Success(duplicates);
  }

  // ----- what the index and the duplicate list are -----

  /** The key set holds exactly the keys of the listed events. */
  lemma {:induction false} KeySetMembers(events: seq<Event>)
    requires Keyed(events)
    ensures forall i :: 0 <= i < |events| ==> Key(events[i]) in KeySet(events)
    ensures forall k :: k in KeySet(events) ==> exists i :: 0 <= i < |events| && Key(events[i]) == k
  {
    if events != [] {
      var n := |events| - 1;
      KeySetMembers(events[..n]);
    }
  }

  /** Every content key of the list has a first occurrence. */
  lemma {:induction false} FirstOccurrenceExists(events: seq<Event>, k: string)
    requires Keyed(events) && k in KeySet(events)
    ensures exists j :: 0 <= j < |events| && Key(events[j]) == k && !IsDuplicateAt(events, j)
  {
    var n := |events| - 1;
    var prefix := events[..n];
    if k in KeySet(prefix) {
      FirstOccurrenceExists(prefix, k);
      var j :| 0 <= j < |prefix| && Key(prefix[j]) == k && !IsDuplicateAt(prefix, j);
      assert events[..j] == prefix[..j];
      assert !IsDuplicateAt(events, j);
    } else {
      assert events[..n] == prefix;
      assert !IsDuplicateAt(events, n);
    }
  }

  /** The dictionary is consistent and its keys are exactly the content keys of the list. */
  lemma {:induction false} IndexKeys(events: seq<Event>)
    requires Keyed(events)
    ensures ValidDictionary(Index(events))
    ensures Index(events).entries.Keys == KeySet(events)
  {
    if events != [] {
      var n := |events| - 1;
      IndexKeys(events[..n]);
    }
  }

  lemma {:induction false} IndexAt(events: seq<Event>, i: nat)
    requires Keyed(events) && i < |events| && !IsDuplicateAt(events, i)
    ensures Key(events[i]) in Index(events).entries && Index(events).entries[Key(events[i])] == events[i]
  {
    var n := |events| - 1;
    var prefix := events[..n];
    var d := Index(prefix);
    var k := Key(events[n]);
    var ki := Key(events[i]);
    assert Index(events) == if k in d.entries then d else EventDictionary(d.order + [k], d.entries[k := events[n]]);
    if i < n {
      assert events[..i] == prefix[..i] && prefix[i] == events[i];
      assert !IsDuplicateAt(prefix, i);
      IndexAt(prefix, i);
      assert ki in d.entries && d.entries[ki] == events[i];
    } else {
      assert events[..n] == prefix;
      assert k !in KeySet(prefix);
      IndexKeys(prefix);
      assert k !in d.entries;
    }
  }

  /** Each key maps to the first event that has it. */
  lemma IndexFirstWins(events: seq<Event>)
    requires Keyed(events)
    ensures forall i :: 0 <= i < |events| && !IsDuplicateAt(events, i) ==>
      Key(events[i]) in Index(events).entries && Index(events).entries[Key(events[i])] == events[i]
  {
    forall i | 0 <= i < |events| && !IsDuplicateAt(events, i)
      ensures Key(events[i]) in Index(events).entries && Index(events).entries[Key(events[i])] == events[i]
    {
      IndexAt(events, i);
    }
  }

  /** Sending the next elements to one side or the other keeps the two sides a split of the list. */
  lemma SplitStep(left: seq<Event>, right: seq<Event>, prefix: seq<Event>, xs: seq<Event>, toLeft: bool)
    requires multiset(left) + multiset(right) == multiset(prefix)
    ensures multiset(left + (if toLeft then xs else [])) + multiset(right + (if toLeft then [] else xs))
      == multiset(prefix + xs)
  {
  }

  /** Duplicates and first occurrences together are the list, each event counted once. */
  lemma {:induction false} DuplicatesPartition(events: seq<Event>)
    requires Keyed(events)
    ensures multiset(Duplicates(events)) + multiset(FirstOccurrences(events)) == multiset(events)
  {
    if events != [] {
      var n := |events| - 1;
      DuplicatesPartition(events[..n]);
      SplitStep(Duplicates(events[..n]), FirstOccurrences(events[..n]), events[..n], [events[n]], IsDuplicateAt(events, n));
      assert events == events[..n] + [events[n]];
    }
  }

  /** No two events of the list share a content key. */
  predicate DistinctKeys(events: seq<Event>)
    requires Keyed(events)
  {
    forall i, j :: 0 <= i < j < |events| ==> Key(events[i]) != Key(events[j])
  }

  /** In a list without shared keys no event repeats an earlier key. */
  lemma DistinctKeysMeansNoRepeat(events: seq<Event>)
    requires Keyed(events) && DistinctKeys(events)
    ensures forall i :: 0 <= i < |events| ==> !IsDuplicateAt(events, i)
  {
    forall i | 0 <= i < |events|
      ensures !IsDuplicateAt(events, i)
    {
      var prefix := events[..i];
      KeySetMembers(prefix);
      assert forall j :: 0 <= j < |prefix| ==> Key(prefix[j]) != Key(events[i]);
    }
  }

  lemma KeyedConcat(a: seq<Event>, b: seq<Event>)
    requires Keyed(a) && Keyed(b)
    ensures Keyed(a + b)
  {
    forall i | 0 <= i < |a + b|
      ensures MakeGoogleEventKey((a + b)[i]).Success?
    {
      if i >= |a| {
        assert (a + b)[i] == b[i - |a|];
      }
    }
  }

  /** Appending one keyed event adds its key. */
  lemma KeySetSnoc(events: seq<Event>, e: Event)
    requires Keyed(events) && MakeGoogleEventKey(e).Success?
    ensures Keyed(events + [e]) && KeySet(events + [e]) == KeySet(events) + {Key(e)}
  {
    KeyedConcat(events, [e]);
    assert (events + [e])[..|events|] == events;
  }

  /** The keys of two lists one after the other. */
  lemma {:induction false} KeySetConcat(a: seq<Event>, b: seq<Event>)
    requires Keyed(a) && Keyed(b)
    ensures Keyed(a + b) && KeySet(a + b) == KeySet(a) + KeySet(b)
    decreases |b|
  {
    KeyedConcat(a, b);
    if b == [] {
      assert a + b == a;
    } else {
      var n := |b| - 1;
      KeySetConcat(a, b[..n]);
      assert (a + b)[..|a + b| - 1] == a + b[..n];
      assert (a + b)[|a + b| - 1] == b[n];
      assert KeySet(b) == KeySet(b[..n]) + {Key(b[n])};
    }
  }

  /** Two lists without shared keys, whose key sets are disjoint, give a list without shared keys. */
  lemma DistinctKeysConcat(a: seq<Event>, b: seq<Event>)
    requires Keyed(a) && Keyed(b) && DistinctKeys(a) && DistinctKeys(b)
    requires KeySet(a) !! KeySet(b)
    ensures Keyed(a + b) && DistinctKeys(a + b)
  {
    KeySetConcat(a, b);
    KeySetMembers(a);
    KeySetMembers(b);
    forall i, j | 0 <= i < j < |a + b|
      ensures Key((a + b)[i]) != Key((a + b)[j])
    {
      if j < |a| {
        assert (a + b)[i] == a[i] && (a + b)[j] == a[j];
      } else if i >= |a| {
        assert (a + b)[i] == b[i - |a|] && (a + b)[j] == b[j - |a|];
      } else {
        assert (a + b)[i] == a[i] && (a + b)[j] == b[j - |a|];
        assert Key(a[i]) in KeySet(a) && Key(b[j - |a|]) in KeySet(b);
      }
    }
  }

  /** An event with a new key keeps the keys distinct. */
  lemma DistinctKeysSnoc(events: seq<Event>, e: Event)
    requires Keyed(events) && DistinctKeys(events)
    requires MakeGoogleEventKey(e).Success? && Key(e) !in KeySet(events)
    ensures Keyed(events + [e]) && DistinctKeys(events + [e])
  {
    KeySetMembers(events);
    KeyedConcat(events, [e]);
    forall i, j | 0 <= i < j < |events + [e]|
      ensures Key((events + [e])[i]) != Key((events + [e])[j])
    {
      assert (events + [e])[i] == events[i];
    }
  }

  /** A list in which no event repeats an earlier key has no duplicates. */
  lemma {:induction false} NoDuplicatesMeansNone(events: seq<Event>)
    requires Keyed(events)
    requires forall i :: 0 <= i < |events| ==> !IsDuplicateAt(events, i)
    ensures Duplicates(events) == []
  {
    if events != [] {
      var n := |events| - 1;
      var prefix := events[..n];
      forall i | 0 <= i < |prefix|
        ensures !IsDuplicateAt(prefix, i)
      {
        assert prefix[..i] == events[..i];
        assert !IsDuplicateAt(events, i);
      }
      NoDuplicatesMeansNone(prefix);
      assert !IsDuplicateAt(events, n);
    }
  }

  /** There are as many first occurrences as distinct keys, so the duplicates are the rest. */
  lemma {:induction false} DuplicateCount(events: seq<Event>)
    requires Keyed(events)
    ensures |FirstOccurrences(events)| == |KeySet(events)|
    ensures |Duplicates(events)| == |events| - |KeySet(events)|
  {
    if events != [] {
      var n := |events| - 1;
      DuplicateCount(events[..n]);
      assert events[..n] == events[..n][..n];
    }
  }
}
