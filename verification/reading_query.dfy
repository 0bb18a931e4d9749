/**
 * The `sensorreading` collection as the dashboard queries it: optionally only
 * one device's readings, newest first, at most `limit` of them.
 */
module ReadingQuery {
  import opened Wrappers
  import opened Documents
  import opened Schemas

  type ReadingDoc = Doc<SensorReading>

  /** A reading as ingestion stores it: valid, with its timestamp and index filled in. */
  predicate StoredReading(r: SensorReading) {
    ValidReading(r) && r.timestamp.Some? && r.aqi.Some?
  }

  /** The collection's invariant with `next` the next free id. */
  predicate ReadingsValid(docs: seq<ReadingDoc>, next: DocId) {
    IdsIncreasing(docs) && IdsBelow(docs, next) && forall k :: 0 <= k < |docs| ==> StoredReading(docs[k].body)
  }

  lemma ReadingsValidLater(docs: seq<ReadingDoc>, next: DocId, next': DocId)
    requires ReadingsValid(docs, next) && next <= next'
    ensures ReadingsValid(docs, next')
  {
  }

  /** Appending a stored reading with the next free id keeps the invariant. */
  lemma AppendKeepsValid(docs: seq<ReadingDoc>, x: ReadingDoc, next: DocId)
    requires ReadingsValid(docs, next) && x.id == next && StoredReading(x.body)
    ensures ReadingsValid(docs + [x], next + 1)
  {
  }

  /** The query filter: `{"device_id": deviceId}` when `deviceId` is truthy, otherwise no filter. */
  predicate Selects(deviceId: Option<string>, doc: ReadingDoc) {
    deviceId.None? || deviceId.value == "" || doc.body.deviceId == deviceId.value
  }

  /** `find(query)`: the selected documents in natural order. */
  function Select(docs: seq<ReadingDoc>, deviceId: Option<string>): (r: seq<ReadingDoc>)
    ensures multiset(r) <= multiset(docs)
    ensures forall x :: x in r ==> Selects(deviceId, x)
    ensures forall x :: x in docs && Selects(deviceId, x) ==> x in r
  {
    if docs == [] then []
    else
      var last := docs[|docs| - 1];
      var front := docs[..|docs| - 1];
      assert docs == front + [last];
      Select(front, deviceId) + (if Selects(deviceId, last) then [last] else [])
  }

  predicate NewestFirst(s: seq<ReadingDoc>) {
    forall i, j :: 0 <= i < j < |s| ==> NotOlder(s[i].body.timestamp, s[j].body.timestamp)
  }

  /** `h` sorts at or before every document of `s`. */
  predicate Leads(h: ReadingDoc, s: seq<ReadingDoc>) {
    forall j :: 0 <= j < |s| ==> NotOlder(h.body.timestamp, s[j].body.timestamp)
  }

  lemma ConsNewestFirst(h: ReadingDoc, t: seq<ReadingDoc>)
    requires Leads(h, t) && NewestFirst(t)
    ensures NewestFirst([h] + t)
  {
    var s := [h] + t;
    forall i, j | 0 <= i < j < |s| ensures NotOlder(s[i].body.timestamp, s[j].body.timestamp) {
      assert s[j] == t[j - 1];
      if i > 0 {
        assert s[i] == t[i - 1];
      }
    }
  }

  /** Leading a sequence carries over to any rearrangement of part of it. */
  lemma LeadsSubMultiset(h: ReadingDoc, t: seq<ReadingDoc>, u: seq<ReadingDoc>)
    requires Leads(h, t) && multiset(u) <= multiset(t)
    ensures Leads(h, u)
  {
    forall j | 0 <= j < |u| ensures NotOlder(h.body.timestamp, u[j].body.timestamp) {
      assert u[j] in multiset(u);
      assert u[j] in t;
    }
  }

  /** Places `x` into a newest-first sequence, ahead of every document it is not older than. */
  function Insert(x: ReadingDoc, s: seq<ReadingDoc>): (r: seq<ReadingDoc>)
    requires NewestFirst(s)
    ensures NewestFirst(r)
    ensures multiset(r) == multiset(s) + multiset{x}
  {
    if s == [] || NotOlder(x.body.timestamp, s[0].body.timestamp) then
      assert Leads(x, s) by {
        forall j | 0 <= j < |s| ensures NotOlder(x.body.timestamp, s[j].body.timestamp) {
          if j > 0 {
            assert NotOlder(s[0].body.timestamp, s[j].body.timestamp);
          }
        }
      }
      ConsNewestFirst(x, s);
      [x] + s
    else
      var tail := s[1..];
      assert s == [s[0]] + tail;
      var rest := Insert(x, tail);
      assert Leads(s[0], tail + [x]) by {
        forall j | 0 <= j < |tail| + 1 ensures NotOlder(s[0].body.timestamp, (tail + [x])[j].body.timestamp) {
          if j < |tail| {
            assert (tail + [x])[j] == s[j + 1];
          }
        }
      }
      LeadsSubMultiset(s[0], tail + [x], rest);
      ConsNewestFirst(s[0], rest);
      [s[0]] + rest
  }

  /** `sort("timestamp", -1)`: a newest-first permutation of `s`. */
  function SortNewestFirst(s: seq<ReadingDoc>): (r: seq<ReadingDoc>)
    ensures NewestFirst(r)
    ensures multiset(r) == multiset(s)
  {
    if s == [] then []
    else
      assert s == [s[0]] + s[1..];
      Insert(s[0], SortNewestFirst(s[1..]))
  }

  /** How many documents `limit(limit)` lets through: 0 means no limit, a negative limit counts as its magnitude. */
  function Cap(limit: int, available: nat): (n: nat)
    ensures n <= available
    ensures limit > 0 ==> n == if limit < available then limit else available
    ensures limit == 0 ==> n == available
  {
    var m := if limit < 0 then -limit else limit;
    if m == 0 || m >= available then available else m
  }

  /** The documents `find(query).sort("timestamp", -1).limit(limit)` returns, for one admissible sort order. */
  function Latest(docs: seq<ReadingDoc>, deviceId: Option<string>, limit: int): seq<ReadingDoc> {
    var sorted := SortNewestFirst(Select(docs, deviceId));
    sorted[..Cap(limit, |sorted|)]
  }

  /**
   * Cutting a newest-first sequence after `n` documents keeps it newest first,
   * and nothing left behind is newer than anything kept.
   */
  lemma PrefixIsNewest(sorted: seq<ReadingDoc>, n: nat)
    requires NewestFirst(sorted) && n <= |sorted|
    ensures NewestFirst(sorted[..n])
    ensures multiset(sorted[..n]) <= multiset(sorted)
    ensures forall x :: x in sorted && x !in sorted[..n] ==>
      forall i :: 0 <= i < n ==> NotOlder(sorted[i].body.timestamp, x.body.timestamp)
  {
    assert sorted == sorted[..n] + sorted[n..];
    forall x | x in sorted && x !in sorted[..n]
      ensures forall i :: 0 <= i < n ==> NotOlder(sorted[i].body.timestamp, x.body.timestamp)
    {
      var k :| 0 <= k < |sorted| && sorted[k] == x;
    }
  }

  /**
   * The latest-readings query returns at most `limit` stored documents (all of
   * them when `limit` is 0), only of the requested device, newest first, and no
   * selected document it leaves out is newer than one it returns.
   */
  lemma LatestSpec(docs: seq<ReadingDoc>, deviceId: Option<string>, limit: int)
    ensures var r := Latest(docs, deviceId, limit);
      && |r| == Cap(limit, |Select(docs, deviceId)|)
      && (limit > 0 ==> |r| <= limit)
      && multiset(r) <= multiset(docs)
      && (forall i :: 0 <= i < |r| ==> Selects(deviceId, r[i]))
      && (deviceId.Some? && deviceId.value != "" ==> forall i :: 0 <= i < |r| ==> r[i].body.deviceId == deviceId.value)
      && NewestFirst(r)
      && (forall x :: x in docs && Selects(deviceId, x) && x !in r ==>
            forall i :: 0 <= i < |r| ==> NotOlder(r[i].body.timestamp, x.body.timestamp))
  {
    var selected := Select(docs, deviceId);
    var sorted := SortNewestFirst(selected);
    var n := Cap(limit, |sorted|);
    var r := sorted[..n];
    assert |sorted| == |selected| by {
      assert |multiset(sorted)| == |multiset(selected)|;
    }
    PrefixIsNewest(sorted, n);
    forall i | 0 <= i < |r| ensures Selects(deviceId, r[i]) {
      assert r[i] in multiset(r);
      assert r[i] in multiset(selected);
    }
    forall x | x in docs && Selects(deviceId, x)
      ensures x in sorted
    {
      assert x in multiset(selected);
    }
  }
}
