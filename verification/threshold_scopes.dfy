/**
 * The `thresholds` collection: one record per scope, written by a whole-record
 * upsert and read without any fallback between scopes.
 *
 * A scope is a filter on the documents' `device_id` field. The per-device filter
 * matches the field holding that id; the global filter asks for documents that
 * have no `device_id` field at all. Because a write stores `device_id` even when
 * it is None (as null), a global write never creates a document the global filter
 * matches: each global write inserts a fresh document and a global read always
 * returns the defaults. The model keeps that behaviour.
 */
module ThresholdScopes {
  import opened Wrappers
  import opened Documents
  import opened Schemas

  /** A document field: missing from the document, present and null, or present with a value. */
  datatype Field<T> = Absent | Null | Value(v: T)

  /** A stored thresholds document. */
  datatype ThresholdFields = ThresholdFields(
    deviceId: Field<string>,
    pm25Good: real,
    pm25Moderate: real,
    pm10Good: real,
    co2Max: real,
    tvocMax: real)

  type ThresholdDoc = Doc<ThresholdFields>

  /** The two filters in use: `{"device_id": id}` and `{"device_id": {"$exists": False}}`. */
  datatype Scope = DeviceIs(id: string) | NoDeviceField

  /** A `device_id` selects the per-device scope when it is truthy: neither None nor empty. */
  function ScopeOf(deviceId: Option<string>): Scope {
    if deviceId.Some? && deviceId.value != "" then DeviceIs(deviceId.value) else NoDeviceField
  }

  predicate Matches(f: ThresholdFields, scope: Scope) {
    match scope
    case DeviceIs(id) => f.deviceId == Value(id)
    case NoDeviceField => f.deviceId.Absent?
  }

  /** `th.model_dump()`: every field of the record; a None `device_id` is written as null. */
  function Dump(th: Thresholds): ThresholdFields {
    ThresholdFields(
      if th.deviceId.Some? then Value(th.deviceId.value) else Null,
      th.pm25Good, th.pm25Moderate, th.pm10Good, th.co2Max, th.tvocMax)
  }

  /** A stored document read back as a thresholds record; a null or missing `device_id` reads as None. */
  function Load(f: ThresholdFields): Thresholds {
    Thresholds(
      if f.deviceId.Value? then Some(f.deviceId.v) else None,
      f.pm25Good, f.pm25Moderate, f.pm10Good, f.co2Max, f.tvocMax)
  }

  /** Writing a record and reading the document back gives the record. */
  lemma LoadDump(th: Thresholds)
    ensures Load(Dump(th)) == th
  {
  }

  /** The position of the first document the scope matches. */
  function FindFirst(docs: seq<ThresholdDoc>, scope: Scope): (r: Option<nat>)
    ensures r.None? <==> forall k :: 0 <= k < |docs| ==> !Matches(docs[k].body, scope)
    ensures r.Some? ==> r.value < |docs| && Matches(docs[r.value].body, scope)
    ensures r.Some? ==> forall k :: 0 <= k < r.value ==> !Matches(docs[k].body, scope)
  {
    if docs == [] then None
    else if Matches(docs[0].body, scope) then Some(0)
    else match FindFirst(docs[1..], scope)
      case None => None
      case Some(k) => Some(k + 1)
  }

  /** `find_one(scope)`. */
  function Lookup(docs: seq<ThresholdDoc>, scope: Scope): (r: Option<ThresholdDoc>)
    ensures r.None? <==> forall k :: 0 <= k < |docs| ==> !Matches(docs[k].body, scope)
    ensures r.Some? ==> r.value in docs && Matches(r.value.body, scope)
  {
    match FindFirst(docs, scope)
    case Some(i) => Some(docs[i])
    case None => None
  }

  /**
   * `update_one(scope, {"$set": th.model_dump()}, upsert=True)`. The `$set` names
   * every field, so the first matching document is overwritten whole; with no
   * match a new document is inserted, and the `$set` overwrites whatever the
   * filter would have seeded it with.
   */
  function Upsert(docs: seq<ThresholdDoc>, scope: Scope, th: Thresholds, freshId: DocId): seq<ThresholdDoc> {
    match FindFirst(docs, scope)
    case Some(i) => docs[i := Doc(docs[i].id, Dump(th))]
    case None => docs + [Doc(freshId, Dump(th))]
  }

  /** `set_thresholds`: the upsert at the scope the record's own `device_id` selects. */
  function SetScoped(docs: seq<ThresholdDoc>, th: Thresholds, freshId: DocId): seq<ThresholdDoc> {
    Upsert(docs, ScopeOf(th.deviceId), th, freshId)
  }

  /** `get_thresholds`: the record stored at the requested scope with its id, or the defaults tagged with `deviceId`. */
  function Resolve(docs: seq<ThresholdDoc>, deviceId: Option<string>): (Thresholds, Option<DocId>) {
    match Lookup(docs, ScopeOf(deviceId))
    case Some(doc) => (Load(doc.body), Some(doc.id))
    case None => (DefaultThresholds(deviceId), None)
  }

  /** No document lacks the `device_id` field. */
  predicate DeviceFieldPresent(docs: seq<ThresholdDoc>) {
    forall k :: 0 <= k < |docs| ==> !docs[k].body.deviceId.Absent?
  }

  /** At most one document per device scope. */
  predicate UniqueDeviceScopes(docs: seq<ThresholdDoc>) {
    forall i, j :: 0 <= i < j < |docs| && docs[i].body.deviceId.Value? && docs[i].body.deviceId.v != "" ==>
      docs[j].body.deviceId != docs[i].body.deviceId
  }

  predicate ValidFields(f: ThresholdFields) {
    ValidThresholds(Load(f))
  }

  predicate AllValid(docs: seq<ThresholdDoc>) {
    forall k :: 0 <= k < |docs| ==> ValidFields(docs[k].body)
  }

  /**
   * A read at a per-device scope never falls back to the global record: the
   * answer is tagged with the requested device, and with no record for that
   * device it is the schema defaults.
   */
  lemma ResolveNeverFallsBack(docs: seq<ThresholdDoc>, deviceId: Option<string>)
    ensures Lookup(docs, ScopeOf(deviceId)).None? ==> Resolve(docs, deviceId) == (DefaultThresholds(deviceId), None)
    ensures ScopeOf(deviceId).DeviceIs? ==> Resolve(docs, deviceId).0.deviceId == deviceId
  {
  }

  /** After a write for device X, a read for X returns exactly the five values written, whatever was there before. */
  lemma {:induction false} DeviceRoundTrip(docs: seq<ThresholdDoc>, th: Thresholds, freshId: DocId)
    requires ScopeOf(th.deviceId).DeviceIs?
    ensures Resolve(SetScoped(docs, th, freshId), th.deviceId).0 == th
  {
    var scope := ScopeOf(th.deviceId);
    var after := SetScoped(docs, th, freshId);
    LoadDump(th);
    match FindFirst(docs, scope)
    case Some(i) =>
      assert after[i].body == Dump(th);
      assert FindFirst(after, scope) == Some(i) by {
        FindFirstEarliest(after, scope, i);
      }
    case None =>
      assert after[|docs|].body == Dump(th);
      assert FindFirst(after, scope) == Some(|docs|) by {
        FindFirstEarliest(after, scope, |docs|);
      }
  }

  /** The first match is at `i` when `i` matches and nothing before it does. */
  lemma FindFirstEarliest(docs: seq<ThresholdDoc>, scope: Scope, i: nat)
    requires i < |docs| && Matches(docs[i].body, scope)
    requires forall k :: 0 <= k < i ==> !Matches(docs[k].body, scope)
    ensures FindFirst(docs, scope) == Some(i)
  {
  }

  /** Replacing or appending a document the scope matches neither before nor after leaves the scope's lookup as it was. */
  lemma LookupUnaffected(docs: seq<ThresholdDoc>, after: seq<ThresholdDoc>, scope: Scope)
    requires |docs| <= |after|
    requires forall k :: 0 <= k < |docs| ==> after[k] == docs[k] || (!Matches(docs[k].body, scope) && !Matches(after[k].body, scope))
    requires forall k :: |docs| <= k < |after| ==> !Matches(after[k].body, scope)
    ensures Lookup(after, scope) == Lookup(docs, scope)
  {
    match FindFirst(docs, scope)
    case Some(i) =>
      assert after[i] == docs[i];
      FindFirstEarliest(after, scope, i);
    case None =>
  }

  /** A write at one scope leaves the record of every other scope as it was. */
  lemma OtherScopesUnchanged(docs: seq<ThresholdDoc>, th: Thresholds, freshId: DocId, other: Option<string>)
    requires ScopeOf(other) != ScopeOf(th.deviceId)
    ensures Resolve(SetScoped(docs, th, freshId), other) == Resolve(docs, other)
  {
    var after := SetScoped(docs, th, freshId);
    var scope := ScopeOf(th.deviceId);
    var otherScope := ScopeOf(other);
    assert !Matches(Dump(th), otherScope);
    match FindFirst(docs, scope)
    case Some(i) =>
      assert !Matches(docs[i].body, otherScope);
      LookupUnaffected(docs, after, otherScope);
    case None =>
      LookupUnaffected(docs, after, otherScope);
  }

  /**
   * While every stored document has a `device_id` field, a global write (None or
   * empty `device_id`) matches nothing and appends a fresh document, and a global
   * read still finds no record and returns the defaults.
   */
  lemma GlobalWriteNotReadBack(docs: seq<ThresholdDoc>, th: Thresholds, freshId: DocId, reader: Option<string>)
    requires ScopeOf(th.deviceId) == NoDeviceField && ScopeOf(reader) == NoDeviceField
    requires DeviceFieldPresent(docs)
    ensures SetScoped(docs, th, freshId) == docs + [Doc(freshId, Dump(th))]
    ensures DeviceFieldPresent(SetScoped(docs, th, freshId))
    ensures Resolve(SetScoped(docs, th, freshId), reader) == (DefaultThresholds(reader), None)
  {
    var after := SetScoped(docs, th, freshId);
    assert after == docs + [Doc(freshId, Dump(th))];
    assert forall k :: 0 <= k < |after| ==> !Matches(after[k].body, NoDeviceField) by {
      forall k | 0 <= k < |after| ensures !Matches(after[k].body, NoDeviceField) {
        if k < |docs| {
          assert after[k] == docs[k];
        }
      }
    }
  }

  /** The collection's invariant with `next` the next free id. */
  predicate ScopesValid(docs: seq<ThresholdDoc>, next: DocId) {
    && DeviceFieldPresent(docs) && UniqueDeviceScopes(docs) && AllValid(docs)
    && IdsIncreasing(docs) && IdsBelow(docs, next)
  }

  lemma ScopesValidLater(docs: seq<ThresholdDoc>, next: DocId, next': DocId)
    requires ScopesValid(docs, next) && next <= next'
    ensures ScopesValid(docs, next')
  {
  }

  /** Every write keeps the collection's invariant: fields present, one record per device scope, valid limits, fresh ids. */
  lemma UpsertKeepsInvariant(docs: seq<ThresholdDoc>, th: Thresholds, freshId: DocId)
    requires ScopesValid(docs, freshId) && ValidThresholds(th)
    ensures ScopesValid(SetScoped(docs, th, freshId), freshId + 1)
  {
    var after := SetScoped(docs, th, freshId);
    var scope := ScopeOf(th.deviceId);
    LoadDump(th);
    match FindFirst(docs, scope)
    case Some(i) =>
      assert Dump(th).deviceId == docs[i].body.deviceId || Dump(th).deviceId == Null || Dump(th).deviceId == Value("");
      forall a, b | 0 <= a < b < |after| && after[a].body.deviceId.Value? && after[a].body.deviceId.v != ""
        ensures after[b].body.deviceId != after[a].body.deviceId
      {
        if a != i && b != i {
          assert after[a] == docs[a] && after[b] == docs[b];
        } else if a == i {
          assert after[b] == docs[b];
        } else {
          assert after[a] == docs[a];
        }
      }
    case None =>
      assert after == docs + [Doc(freshId, Dump(th))];
  }
}
