/** `ErrorTracker` (src/error-tracker.ts): a map from fingerprint to an occurrence record,
    with a frequency threshold fixed at construction. A JavaScript `Map` iterates in the
    order its keys were first set, so the tracker is modelled as the record map together
    with the fingerprints in that order. The clock is an explicit `now` argument. */
module Tracker {
  import opened Options
  import opened Fingerprint
  import opened Ranking

  /** `ErrorRecord`: message, stack and context as first seen, and the count and the
      first and last times of the occurrences since the last `clear`. */
  datatype ErrorRecord = ErrorRecord(
    fingerprint: string,
    message: string,
    stack: Option<string>,
    count: int,
    firstSeen: int,
    lastSeen: int,
    context: Option<Context>)

  /** The rank the queries sort by. */
  function CountOf(r: ErrorRecord): int {
    r.count
  }

  datatype ErrorTracker = ErrorTracker(
    threshold: int,
    order: seq<string>,
    records: map<string, ErrorRecord>)

  /** The constructor's default threshold. */
  const DefaultThreshold: int := 3

  predicate Distinct(s: seq<string>) {
    forall i, j :: 0 <= i < j < |s| ==> s[i] != s[j]
  }

  /** What every reachable tracker satisfies: each fingerprint is listed once, the list
      and the map hold the same fingerprints, and each record sits under its own
      fingerprint with a positive count. */
  predicate Valid(t: ErrorTracker) {
    && Distinct(t.order)
    && (forall k :: k in t.order ==> k in t.records)
    && (forall k :: k in t.records ==> k in t.order)
    && (forall k :: k in t.records ==> t.records[k].fingerprint == k && t.records[k].count >= 1)
  }

  // ---------------------------------------------------------------------------------
  // Queries

  /** The records in the map's iteration order: `Array.from(this.errors.values())`. */
  function ValuesInOrder(order: seq<string>, records: map<string, ErrorRecord>): seq<ErrorRecord> {
    if order == [] then []
    else (if order[0] in records then [records[order[0]]] else []) + ValuesInOrder(order[1..], records)
  }

  function Values(t: ErrorTracker): seq<ErrorRecord> {
    ValuesInOrder(t.order, t.records)
  }

  /** `.filter(record => record.count >= threshold)`. */
  function AtLeast(s: seq<ErrorRecord>, threshold: int): seq<ErrorRecord> {
    if s == [] then []
    else (if s[0].count >= threshold then [s[0]] else []) + AtLeast(s[1..], threshold)
  }

  /** `isFrequent(fingerprint)`: a record exists and its count has reached the
      threshold; an unknown fingerprint is not frequent. */
  function IsFrequent(t: ErrorTracker, fingerprint: string): (b: bool)
    ensures b <==> fingerprint in t.records && t.records[fingerprint].count >= t.threshold
  {
    match GetError(t, fingerprint)
    case Some(record) => record.count >= t.threshold
    case None => false
  }

  /** `getError(fingerprint)`. */
  function GetError(t: ErrorTracker, fingerprint: string): (r: Option<ErrorRecord>)
    ensures r.Some? <==> fingerprint in t.records
    ensures r.Some? ==> r.value == t.records[fingerprint]
    ensures r.Some? && Valid(t) ==> r.value.fingerprint == fingerprint
  {
    if fingerprint in t.records then Some(t.records[fingerprint]) else None
  }

  /** `getAllErrors()`: every record once, most frequent first. */
  function GetAllErrors(t: ErrorTracker): (r: seq<ErrorRecord>)
    ensures SortedByRank(r, CountOf)
    ensures Valid(t) ==> forall x :: multiset(r)[x] == if x in t.records.Values then 1 else 0
    ensures Valid(t) ==> |r| == |t.records|
  {
    var r := SortByRank(Values(t), CountOf);
    assert Valid(t) ==> forall x :: multiset(r)[x] == if x in t.records.Values then 1 else 0 by {
      if Valid(t) {
        forall x ensures multiset(r)[x] == if x in t.records.Values then 1 else 0 {
          ValuesMultiset(t.order, t.records, x);
          InValues(t, x);
        }
      }
    }
    assert Valid(t) ==> |r| == |t.records| by {
      if Valid(t) {
        assert |r| == |multiset(r)| == |multiset(Values(t))| == |Values(t)|;
        ValuesLength(t.order, t.records);
        DistinctCardinality(t.order);
        assert (set k | k in t.order) == t.records.Keys;
      }
    }
    r
  }

  /** `getFrequentErrors()`: every record whose count has reached the threshold, once,
      most frequent first. */
  function GetFrequentErrors(t: ErrorTracker): (r: seq<ErrorRecord>)
    ensures SortedByRank(r, CountOf)
    ensures Valid(t) ==> forall x :: multiset(r)[x]
                                     == if x in t.records.Values && x.count >= t.threshold then 1 else 0
  {
    var r := SortByRank(AtLeast(Values(t), t.threshold), CountOf);
    assert Valid(t) ==> forall x :: multiset(r)[x]
                                    == if x in t.records.Values && x.count >= t.threshold then 1 else 0 by {
      if Valid(t) {
        forall x ensures multiset(r)[x] == if x in t.records.Values && x.count >= t.threshold then 1 else 0 {
          AtLeastMultiset(Values(t), t.threshold, x);
          ValuesMultiset(t.order, t.records, x);
          InValues(t, x);
        }
      }
    }
    r
  }

  lemma {:induction false} ValuesMultiset(order: seq<string>, records: map<string, ErrorRecord>, x: ErrorRecord)
    requires Distinct(order)
    requires forall k :: k in records ==> records[k].fingerprint == k
    ensures multiset(ValuesInOrder(order, records))[x]
            == if x.fingerprint in order && x.fingerprint in records && records[x.fingerprint] == x then 1 else 0
  {
    if order != [] {
      assert Distinct(order[1..]);
      ValuesMultiset(order[1..], records, x);
      assert order == [order[0]] + order[1..];
      assert x.fingerprint in order <==> x.fingerprint == order[0] || x.fingerprint in order[1..];
    }
  }

  lemma InValues(t: ErrorTracker, x: ErrorRecord)
    requires Valid(t)
    ensures x in t.records.Values <==> x.fingerprint in t.records && t.records[x.fingerprint] == x
  {
    if x in t.records.Values {
      var k :| k in t.records && t.records[k] == x;
    }
  }

  lemma {:induction false} AtLeastMultiset(s: seq<ErrorRecord>, threshold: int, x: ErrorRecord)
    ensures multiset(AtLeast(s, threshold))[x] == if x.count >= threshold then multiset(s)[x] else 0
  {
    if s != [] {
      AtLeastMultiset(s[1..], threshold, x);
      assert s == [s[0]] + s[1..];
    }
  }

  lemma {:induction false} ValuesLength(order: seq<string>, records: map<string, ErrorRecord>)
    requires forall k :: k in order ==> k in records
    ensures |ValuesInOrder(order, records)| == |order|
  {
    if order != [] {
      ValuesLength(order[1..], records);
    }
  }

  lemma {:induction false} DistinctCardinality(s: seq<string>)
    requires Distinct(s)
    ensures |set k | k in s| == |s|
  {
    if s != [] {
      DistinctCardinality(s[1..]);
      assert (set k | k in s) == {s[0]} + (set k | k in s[1..]);
      assert s[0] !in (set k | k in s[1..]);
    }
  }

  /** Records of equal count come out of `getAllErrors()` in the order their fingerprints
      were first tracked, because the sort is stable. */
  lemma AllErrorsTiesInInsertionOrder(t: ErrorTracker, count: int)
    ensures WithRank(GetAllErrors(t), CountOf, count) == WithRank(Values(t), CountOf, count)
  {
    SortIsStable(Values(t), CountOf, count);
  }

  // ---------------------------------------------------------------------------------
  // State transitions

  /** `new ErrorTracker(threshold)`: no records. */
  function NewTracker(threshold: int := DefaultThreshold): (t: ErrorTracker)
    ensures Valid(t) && t.threshold == threshold
    ensures GetAllErrors(t) == [] && forall fp :: GetError(t, fp) == None
  {
    ErrorTracker(threshold, [], map[])
  }

  /** `clear()`: every record goes; the threshold stays. */
  function Clear(t: ErrorTracker): (r: ErrorTracker)
    ensures Valid(r) && r.threshold == t.threshold
    ensures GetAllErrors(r) == [] && forall fp :: GetError(r, fp) == None
  {
    t.(order := [], records := map[])
  }

  /** The tracker after `track` and the record `track` returns. */
  datatype Tracked = Tracked(tracker: ErrorTracker, record: ErrorRecord)

  /** `track(error, context)` at time `now`. A seen fingerprint has its count raised by
      one and its last-seen time set, nothing else about it changing; an unseen one gets
      a fresh record with count 1. Every other fingerprint's record is left alone, and the
      returned record is the one now stored. */
  function Track(t: ErrorTracker, error: JsError, context: Option<Context>, now: int): (r: Tracked)
    ensures var fp := CreateFingerprint(error, context);
            && r.tracker.threshold == t.threshold
            && r.tracker.records == t.records[fp := r.record]
            && (fp in t.records ==>
                  r.record == t.records[fp].(count := t.records[fp].count + 1, lastSeen := now))
            && (fp !in t.records ==>
                  r.record == ErrorRecord(fp, error.message, error.stack, 1, now, now, context))
    ensures Valid(t) ==> Valid(r.tracker) && r.record.fingerprint == CreateFingerprint(error, context)
    ensures var fp := CreateFingerprint(error, context);
            r.tracker.order == if fp in t.records then t.order else t.order + [fp]
  {
    var fp := CreateFingerprint(error, context);
    match GetError(t, fp)
    case Some(existing) =>
      var updated := existing.(count := existing.count + 1, lastSeen := now);
      Tracked(t.(records := t.records[fp := updated]), updated)
    case None =>
      var record := ErrorRecord(fp, error.message, error.stack, 1, now, now, context);
      var t' := t.(order := t.order + [fp], records := t.records[fp := record]);
      assert Valid(t) ==> Valid(t') by {
        if Valid(t) {
          AddRecordValid(t, fp, record);
        }
      }
      Tracked(t', record)
  }

  /** Listing a new fingerprint last, with a record of its own, keeps a tracker valid. */
  lemma AddRecordValid(t: ErrorTracker, fp: string, record: ErrorRecord)
    requires Valid(t) && fp !in t.records && record.fingerprint == fp && record.count >= 1
    ensures Valid(t.(order := t.order + [fp], records := t.records[fp := record]))
  {
    var t' := t.(order := t.order + [fp], records := t.records[fp := record]);
    assert forall k :: k in t'.order <==> k in t.order || k == fp;
  }

  // ---------------------------------------------------------------------------------
  // Sequences of occurrences

  /** One call of `track`: the error, its context and the clock reading. */
  datatype Occurrence = Occurrence(error: JsError, context: Option<Context>, now: int)

  function FingerprintOf(o: Occurrence): string {
    CreateFingerprint(o.error, o.context)
  }

  /** The tracker after the calls `os`, first to last. */
  function TrackAll(t: ErrorTracker, os: seq<Occurrence>): ErrorTracker
    decreases |os|
  {
    if os == [] then t
    else TrackAll(Track(t, os[0].error, os[0].context, os[0].now).tracker, os[1..])
  }

  /** How many of the calls `os` have fingerprint `fp`. */
  function Occurrences(os: seq<Occurrence>, fp: string): nat {
    if os == [] then 0
    else (if FingerprintOf(os[0]) == fp then 1 else 0) + Occurrences(os[1..], fp)
  }

  function FirstOccurrence(os: seq<Occurrence>, fp: string): Occurrence
    requires Occurrences(os, fp) > 0
  {
    if FingerprintOf(os[0]) == fp then os[0] else FirstOccurrence(os[1..], fp)
  }

  function LastOccurrence(os: seq<Occurrence>, fp: string): Occurrence
    requires Occurrences(os, fp) > 0
  {
    if Occurrences(os[1..], fp) > 0 then LastOccurrence(os[1..], fp) else os[0]
  }

  /** After the calls `os`, a fingerprint's count is its count before plus the number of
      calls that had it; its last-seen time is that of the last such call; its message,
      stack, context and first-seen time come from the call that created the record. A
      fingerprint no call had keeps its record unchanged. */
  lemma {:induction false} CountIsNumberOfTracks(t: ErrorTracker, os: seq<Occurrence>, fp: string)
    ensures var t' := TrackAll(t, os);
            && t'.threshold == t.threshold
            && (fp in t'.records <==> fp in t.records || Occurrences(os, fp) > 0)
            && (Occurrences(os, fp) == 0 && fp in t.records ==> t'.records[fp] == t.records[fp])
            && (Occurrences(os, fp) > 0 ==>
                  && t'.records[fp].count
                     == (if fp in t.records then t.records[fp].count else 0) + Occurrences(os, fp)
                  && t'.records[fp].lastSeen == LastOccurrence(os, fp).now)
            && (Occurrences(os, fp) > 0 && fp in t.records ==>
                  t'.records[fp].(count := 0, lastSeen := 0) == t.records[fp].(count := 0, lastSeen := 0))
            && (Occurrences(os, fp) > 0 && fp !in t.records ==>
                  var first := FirstOccurrence(os, fp);
                  && t'.records[fp].firstSeen == first.now
                  && t'.records[fp].message == first.error.message
                  && t'.records[fp].stack == first.error.stack
                  && t'.records[fp].context == first.context)
    decreases |os|
  {
    if os != [] {
      var t1 := Track(t, os[0].error, os[0].context, os[0].now).tracker;
      CountIsNumberOfTracks(t1, os[1..], fp);
    }
  }

  /** Every call in `os` tracks the same error in the same context. */
  predicate AllSame(os: seq<Occurrence>, fp: string) {
    forall i :: 0 <= i < |os| ==> FingerprintOf(os[i]) == fp
  }

  lemma {:induction false} AllSameOccurrences(os: seq<Occurrence>, fp: string)
    requires AllSame(os, fp)
    ensures Occurrences(os, fp) == |os|
  {
    if os != [] {
      AllSameOccurrences(os[1..], fp);
    }
  }

  /** From an empty tracker, `n` tracks of one error give count `n`, and the error is
      frequent exactly once `n` has reached the threshold (with the default threshold: not
      after one or two calls, but after the third). */
  lemma FrequentOnceThresholdReached(t: ErrorTracker, os: seq<Occurrence>, fp: string)
    requires t.records == map[]
    requires |os| > 0 && AllSame(os, fp)
    ensures GetError(TrackAll(t, os), fp).Some?
    ensures GetError(TrackAll(t, os), fp).value.count == |os|
    ensures IsFrequent(TrackAll(t, os), fp) <==> |os| >= t.threshold
  {
    AllSameOccurrences(os, fp);
    CountIsNumberOfTracks(t, os, fp);
  }

  /** `track` keeps the tracker valid, so the queries' guarantees hold along any run. */
  lemma {:induction false} TrackAllValid(t: ErrorTracker, os: seq<Occurrence>)
    requires Valid(t)
    ensures Valid(TrackAll(t, os))
    decreases |os|
  {
    if os != [] {
      TrackAllValid(Track(t, os[0].error, os[0].context, os[0].now).tracker, os[1..]);
    }
  }
}
