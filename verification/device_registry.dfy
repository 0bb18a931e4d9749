/**
 * The `device` collection and the heartbeat step of ingestion: a device already
 * on record gets a new `last_seen`, an unseen `device_id` gets a record with the
 * schema defaults.
 */
module DeviceRegistry {
  import opened Wrappers
  import opened Documents
  import opened Schemas

  type DeviceDoc = Doc<Device>

  /**
   * The first device document whose `device_id` is `id`: the document that
   * `update_one({"device_id": id}, ...)` changes, and `None` exactly when
   * `find({"device_id": id})` returns nothing.
   */
  function FindDevice(docs: seq<DeviceDoc>, id: string): (r: Option<nat>)
    ensures r.None? <==> forall k :: 0 <= k < |docs| ==> docs[k].body.deviceId != id
    ensures r.Some? ==> r.value < |docs| && docs[r.value].body.deviceId == id
    ensures r.Some? ==> forall k :: 0 <= k < r.value ==> docs[k].body.deviceId != id
  {
    if docs == [] then None
    else if docs[0].body.deviceId == id then Some(0)
    else match FindDevice(docs[1..], id)
      case None => None
      case Some(k) => Some(k + 1)
  }

  /** At most one device record per `device_id`. */
  predicate UniqueDeviceIds(docs: seq<DeviceDoc>) {
    forall i, j :: 0 <= i < j < |docs| ==> docs[i].body.deviceId != docs[j].body.deviceId
  }

  /** The record at position `i` with only its `last_seen` replaced (`$set: {"last_seen": now}`). */
  function Touch(docs: seq<DeviceDoc>, i: nat, now: Time): (r: seq<DeviceDoc>)
    requires i < |docs|
    ensures |r| == |docs| && r[i].id == docs[i].id
    ensures r[i].body.deviceId == docs[i].body.deviceId && r[i].body.lastSeen == Some(now)
    ensures forall k :: 0 <= k < |docs| && k != i ==> r[k] == docs[k]
  {
    docs[i := Doc(docs[i].id, docs[i].body.(lastSeen := Some(now)))]
  }

  /**
   * The device step of ingestion for a reading from `id`: the existing record is
   * touched, otherwise a default record with the id `freshId` is inserted.
   */
  function Heartbeat(docs: seq<DeviceDoc>, id: string, now: Time, freshId: DocId): (r: seq<DeviceDoc>)
  {
    match FindDevice(docs, id)
    case Some(i) => Touch(docs, i, now)
    case None =>
      var r := docs + [Doc(freshId, DefaultDevice(id))];
      assert r[|docs|].body.deviceId == id;
      r
  }

  /**
   * For a known device only the `last_seen` of its own record changes, and it
   * becomes `now`; every other record, and every other field, stays as it was.
   */
  lemma HeartbeatKnownDevice(docs: seq<DeviceDoc>, id: string, now: Time, freshId: DocId)
    requires FindDevice(docs, id).Some?
    ensures var r := Heartbeat(docs, id, now, freshId);
      && |r| == |docs|
      && (forall k :: 0 <= k < |docs| ==> r[k].id == docs[k].id)
      && (forall k :: 0 <= k < |docs| ==> r[k].body.(lastSeen := docs[k].body.lastSeen) == docs[k].body)
      && (forall k :: 0 <= k < |docs| && docs[k].body.deviceId != id ==> r[k] == docs[k])
      && (exists k :: 0 <= k < |r| && r[k].body.deviceId == id && r[k].body.lastSeen == Some(now))
  {
    var i := FindDevice(docs, id).value;
    assert Heartbeat(docs, id, now, freshId)[i].body.lastSeen == Some(now);
  }

  /**
   * For an unseen device exactly one record is added, after all the others: the
   * schema defaults for `id`, with `last_seen` still empty.
   */
  lemma HeartbeatNewDevice(docs: seq<DeviceDoc>, id: string, now: Time, freshId: DocId)
    requires FindDevice(docs, id).None?
    ensures var r := Heartbeat(docs, id, now, freshId);
      && |r| == |docs| + 1
      && r[..|docs|] == docs
      && r[|docs|].id == freshId
      && r[|docs|].body == DefaultDevice(id)
      && r[|docs|].body.lastSeen.None?
  {
    var r := Heartbeat(docs, id, now, freshId);
    assert r == docs + [Doc(freshId, DefaultDevice(id))];
  }

  /**
   * The heartbeat keeps at most one record per `device_id`, and afterwards the
   * reading's device has exactly one.
   */
  lemma HeartbeatKeepsIdsUnique(docs: seq<DeviceDoc>, id: string, now: Time, freshId: DocId)
    requires UniqueDeviceIds(docs)
    ensures UniqueDeviceIds(Heartbeat(docs, id, now, freshId))
    ensures exists k :: 0 <= k < |Heartbeat(docs, id, now, freshId)| && Heartbeat(docs, id, now, freshId)[k].body.deviceId == id
  {
    var r := Heartbeat(docs, id, now, freshId);
    match FindDevice(docs, id)
    case Some(i) =>
      assert r[i].body.deviceId == id;
    case None =>
      assert r[|docs|].body.deviceId == id;
  }

  /** The last heartbeat, if any, happened before `now`. */
  predicate SeenBefore(lastSeen: Option<Time>, now: Time) {
    lastSeen.Some? ==> lastSeen.value < now
  }

  /**
   * The registry's invariant at time `now` with `next` the next free id: fresh
   * increasing ids, one record per device, valid records, heartbeats in the past.
   */
  predicate RegistryValid(docs: seq<DeviceDoc>, now: Time, next: DocId) {
    && IdsIncreasing(docs) && IdsBelow(docs, next)
    && UniqueDeviceIds(docs)
    && forall k :: 0 <= k < |docs| ==> ValidDevice(docs[k].body) && SeenBefore(docs[k].body.lastSeen, now)
  }

  lemma RegistryValidLater(docs: seq<DeviceDoc>, now: Time, next: DocId, now': Time, next': DocId)
    requires RegistryValid(docs, now, next) && now <= now' && next <= next'
    ensures RegistryValid(docs, now', next')
  {
  }

  /**
   * The heartbeat at time `now` keeps the registry's invariant (a new record
   * takes the id `freshId`, a touched one moves the clock past `now`) and never
   * moves a device's `last_seen` backwards.
   */
  lemma HeartbeatKeepsValid(docs: seq<DeviceDoc>, id: string, now: Time, freshId: DocId)
    requires RegistryValid(docs, now, freshId)
    ensures var r := Heartbeat(docs, id, now, freshId);
      && (FindDevice(docs, id).Some? ==> RegistryValid(r, now + 1, freshId))
      && (FindDevice(docs, id).None? ==> RegistryValid(r, now, freshId + 1))
      && |r| >= |docs|
      && forall k :: 0 <= k < |docs| ==> NotOlder(r[k].body.lastSeen, docs[k].body.lastSeen)
  {
    HeartbeatKeepsIdsUnique(docs, id, now, freshId);
    var r := Heartbeat(docs, id, now, freshId);
    match FindDevice(docs, id)
    case Some(i) =>
      assert forall k :: 0 <= k < |docs| ==> r[k] == docs[k] || k == i;
    case None =>
      assert r == docs + [Doc(freshId, DefaultDevice(id))];
  }
}
