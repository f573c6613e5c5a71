/**
 * The pure parts of the Google Calendar adapter: which listed events count as
 * out-of-office events, and how a list of requests is cut into batches.
 * The HTTP calls themselves (listing pages, queuing and executing batch
 * requests) are not part of this model.
 */
module GoogleCalendarApi {
  import opened Models
  import opened Seqs

  /** Summaries containing one of these texts are out-of-office events. */
  const OutOfOfficeStrings: seq<string> := ["Out of office", "Out of Office", "Professional Development", "Work From Home"]

  /** Most requests sent in one batch. */
  const MaxBatchRequests: int := 500

  /** Ordinal `string.Contains`: `sub` occurs in `s` at some position. */
  predicate Contains(s: string, sub: string)
  {
    sub <= s || (|s| > 0 && Contains(s[1..], sub))
  }

  /** Any text followed by `sub` contains `sub`. */
  lemma {:induction false} ContainsSuffix(prefix: string, sub: string)
    ensures Contains(prefix + sub, sub)
  {
    if prefix != [] {
      assert (prefix + sub)[1..] == prefix[1..] + sub;
      ContainsSuffix(prefix[1..], sub);
    }
  }

  /** The summary is non-null and contains one of the out-of-office texts. */
  predicate EventContainsOutOfOfficeString(e: Event)
  {
    e.summary.Some? && exists k :: 0 <= k < |OutOfOfficeStrings| && Contains(e.summary.value, OutOfOfficeStrings[k])
  }

  /** The `Where` applied to the items of one listed page. */
  function FilterOutOfOfficeEvents(items: seq<Event>): (r: seq<Event>)
    ensures |r| <= |items|
    ensures forall e :: e in r <==> e in items && EventContainsOutOfOfficeString(e)
  {
    if items == [] then []
    else if EventContainsOutOfOfficeString(items[0]) then [items[0]] + FilterOutOfOfficeEvents(items[1..])
    else FilterOutOfOfficeEvents(items[1..])
  }

  /**
   * Filtering page by page and then concatenating the pages gives the
   * filter of the whole listing: the order of the kept events is that of
   * the pages.
   */
  lemma {:induction false} FilterPages(page: seq<Event>, rest: seq<Event>)
    ensures FilterOutOfOfficeEvents(page + rest) == FilterOutOfOfficeEvents(page) + FilterOutOfOfficeEvents(rest)
  {
    if page != [] {
      var whole := page + rest;
      assert whole != [] && whole[0] == page[0] && whole[1..] == page[1..] + rest;
      FilterPages(page[1..], rest);
      if EventContainsOutOfOfficeString(page[0]) {
        calc {
          FilterOutOfOfficeEvents(whole);
          [page[0]] + FilterOutOfOfficeEvents(page[1..] + rest);
          [page[0]] + (FilterOutOfOfficeEvents(page[1..]) + FilterOutOfOfficeEvents(rest));
          ([page[0]] + FilterOutOfOfficeEvents(page[1..])) + FilterOutOfOfficeEvents(rest);
        }
      }
    } else {
      assert page + rest == rest;
    }
  }

  /** LINQ `Take`: the first `n` elements, or all of them, or none for `n <= 0`. */
  function Take<T>(s: seq<T>, n: int): seq<T>
  {
    if n <= 0 then [] else if n >= |s| then s else s[..n]
  }

  /** LINQ `Skip`: all but the first `n` elements. */
  function Skip<T>(s: seq<T>, n: int): seq<T>
  {
    if n <= 0 then s else if n >= |s| then [] else s[n..]
  }

  /** The count of a loop that stops at the first multiple of `size` reaching `n` is the ceiling of `n / size`. */
  lemma CeilingCount(n: nat, size: int, count: nat)
    requires size > 0
    requires n <= count * size
    requires count == 0 || (count - 1) * size < n
    ensures count == (n + size - 1) / size
  {
    if count > 0 {
      assert (count - 1) * size == count * size - size;
    }
    QuotientUnique(n + size - 1, size, count);
  }

  /** `m / size` is the one `c` with `c * size <= m < c * size + size`. */
  lemma QuotientUnique(m: int, size: int, c: int)
    requires size > 0 && m >= 0
    requires c * size <= m < c * size + size
    ensures m / size == c
  {
    var q := m / size;
    assert q * size <= m < q * size + size;
    if q < c {
      assert (c - q) * size == c * size - q * size;
      ProductAtLeast(c - q, size);
    } else if q > c {
      assert (q - c) * size == q * size - c * size;
      ProductAtLeast(q - c, size);
    }
  }

  lemma ProductAtLeast(k: int, size: int)
    requires k >= 1 && size > 0
    ensures k * size >= size
  {
    assert k * size == (k - 1) * size + size;
  }

  /** The batch taken after `start` elements is the slice from `start` of at most `size` elements. */
  lemma TakeSkipSlice<T>(s: seq<T>, start: nat, size: int)
    requires size > 0 && start < |s|
    ensures Take(Skip(s, start), size) == s[start..if start + size <= |s| then start + size else |s|]
  {
  }

  /** A prefix followed by the slice after it is the longer prefix. */
  lemma PrefixExtend<T>(s: seq<T>, i: nat, j: nat)
    requires i <= j <= |s|
    ensures s[..i] + s[i..j] == s[..j]
  {
  }

  /**
   * What holds each time `Batch` tests its loop condition, for a positive
   * size, after `|result|` batches and `taken` elements batched or skipped.
   */
  ghost predicate BatchInvariant<T>(elements: seq<T>, size: int, result: seq<seq<T>>, taken: int, batch: seq<T>)
  {
    && size > 0 && 0 <= taken == |result| * size
    && batch == Take(Skip(elements, taken), size)
    && (forall i :: 0 <= i < |result| ==> 0 < |result[i]| <= size)
    && (forall i :: 0 <= i < |result| - 1 ==> |result[i]| == size)
    && (|batch| > 0 ==>
         taken < |elements| && Flatten(result) == elements[..taken] &&
         forall i :: 0 <= i < |result| ==> |result[i]| == size)
    && (|batch| == 0 ==> Flatten(result) == elements)
    && (|result| == 0 || taken - size < |elements|)
  }

  /** One turn of the loop of `Batch` keeps its invariant and batches more elements. */
  lemma BatchStep<T>(elements: seq<T>, size: int, result: seq<seq<T>>, taken: int, batch: seq<T>)
    requires BatchInvariant(elements, size, result, taken, batch) && |batch| > 0
    ensures BatchInvariant(elements, size, result + [batch], taken + size, Take(Skip(elements, taken + size), size))
    ensures |Flatten(result)| <= |elements| && |Flatten(result + [batch])| > |Flatten(result)|
  {
    FlattenAppend(result, batch);
    var stop := if taken + size <= |elements| then taken + size else |elements|;
    TakeSkipSlice(elements, taken, size);
    PrefixExtend(elements, taken, stop);
    assert (|result| + 1) * size == taken + size;
  }

  /**
   * `Batch`: cuts `elements` into consecutive batches of `batchSize`, the
   * last one possibly shorter; a non-positive size gives no batch at all.
   */
  method Batch<T>(elements: seq<T>, batchSize: int) returns (result: seq<seq<T>>)
    ensures batchSize <= 0 ==> result == []
    ensures batchSize > 0 ==> Flatten(result) == elements
    ensures forall i :: 0 <= i < |result| ==> 0 < |result[i]| <= batchSize
    ensures forall i :: 0 <= i < |result| - 1 ==> |result[i]| == batchSize
    ensures batchSize > 0 ==> |result| == (|elements| + batchSize - 1) / batchSize
  {
    var batch := Take(elements, batchSize);
    var batches := 0;
    result := [];
    while |batch| > 0
      invariant |result| == batches
      invariant batchSize <= 0 ==> result == [] && batch == []
      invariant batchSize > 0 ==> BatchInvariant(elements, batchSize, result, batches * batchSize, batch)
      decreases |elements| - |Flatten(result)|
    {
      BatchStep(elements, batchSize, result, batches * batchSize, batch);
      assert (batches + 1) * batchSize == batches * batchSize + batchSize;
      result := result + [batch];
      batches := batches + 1;
      batch := Take(Skip(elements, batches * batchSize), batchSize);
    }
    if batchSize > 0 {
      assert batches == 0 || (batches - 1) * batchSize == batches * batchSize - batchSize;
      CeilingCount(|elements|, batchSize, batches);
    }
  }

  /**
   * The batches that `AddGoogleEvents` and `DeleteGoogleEvents` send, one
   * batch request each: the events in order, at most `MaxBatchRequests`
   * (500) per batch.
   */
  method BatchRequests<T>(requests: seq<T>) returns (batches: seq<seq<T>>)
    ensures Flatten(batches) == requests
    ensures forall i :: 0 <= i < |batches| ==> 0 < |batches[i]| <= 500
    ensures forall i :: 0 <= i < |batches| - 1 ==> |batches[i]| == 500
    ensures |batches| == (|requests| + 499) / 500
  {
    batches := Batch(requests, MaxBatchRequests);
  }
}
