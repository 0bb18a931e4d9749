/**
 * The service's endpoints as methods on one store object holding the four
 * collections, a clock and the id counter of the document store.
 */
module Service {
  import opened Wrappers
  import opened Documents
  import opened Schemas
  import opened Aqi
  import opened DeviceRegistry
  import opened ReadingQuery
  import opened ThresholdScopes
  import opened CommandQueue

  /**
   * The fill-in step of ingestion: a missing timestamp becomes `now`, a missing
   * index is derived from the particulate readings, and nothing else changes.
   */
  function Normalize(payload: SensorReading, now: Time): (r: SensorReading)
    ensures r.(timestamp := payload.timestamp, aqi := payload.aqi) == payload
    ensures payload.timestamp.Some? ==> r.timestamp == payload.timestamp
    ensures payload.timestamp.None? ==> r.timestamp == Some(now)
    ensures payload.aqi.Some? ==> r.aqi == payload.aqi
    ensures payload.aqi.None? ==> r.aqi == ComputeAqi(Some(payload.pm25), Some(payload.pm10))
    ensures ValidReading(payload) ==> StoredReading(r)
  {
    var stamped := if payload.timestamp.None? then payload.(timestamp := Some(now)) else payload;
    if stamped.aqi.None? then stamped.(aqi := ComputeAqi(Some(stamped.pm25), Some(stamped.pm10))) else stamped
  }

  class Store {
    /** The `device` collection. */
    var devices: seq<DeviceDoc>
    /** The `sensorreading` collection. */
    var readings: seq<ReadingDoc>
    /** The `thresholds` collection. */
    var thresholds: seq<ThresholdDoc>
    /** The `devicecommand` collection. */
    var commands: seq<CommandDoc>
    /** The clock: every reading of it is later than the one before. */
    var clock: Time
    /** The next `_id` the store hands out. */
    var nextId: DocId

    ghost predicate Valid()
      reads this
    {
      && RegistryValid(devices, clock, nextId)
      && ReadingsValid(readings, nextId)
      && ScopesValid(thresholds, nextId)
      && QueueValid(commands, clock, nextId)
    }

    /** The commands pending for device `d`, oldest first. */
    ghost function Queue(d: string): seq<CommandDoc>
      reads this
    {
      Pending(commands, d)
    }

    /** An empty store. */
    constructor ()
      ensures Valid()
      ensures devices == [] && readings == [] && thresholds == [] && commands == []
    {
      devices, readings, thresholds, commands := [], [], [], [];
      clock, nextId := 0, 0;
    }

    /** The current time; the clock moves on. */
    method Now() returns (t: Time)
      modifies this`clock
      ensures t == old(clock) && clock == old(clock) + 1
    {
      t := clock;
      clock := clock + 1;
    }

    /** A fresh `_id`, as `create_document` and an upsert produce one. */
    method NewId() returns (id: DocId)
      modifies this`nextId
      ensures id == old(nextId) && nextId == old(nextId) + 1
    {
      id := nextId;
      nextId := nextId + 1;
    }

    /**
     * `POST /api/readings`: fill in the reading, reconcile the device registry,
     * then append the reading. Returns the reading's id.
     */
    method IngestReading(payload: SensorReading) returns (id: DocId)
      requires Valid() && ValidReading(payload)
      modifies this
      ensures Valid()
      ensures thresholds == old(thresholds) && commands == old(commands)
      ensures readings == old(readings) + [Doc(id, Normalize(payload, old(clock)))]
      ensures var known := FindDevice(old(devices), payload.deviceId).Some?;
        var heartbeatAt := old(clock) + (if payload.timestamp.None? then 1 else 0);
        && devices == Heartbeat(old(devices), payload.deviceId, heartbeatAt, old(nextId))
        && clock == heartbeatAt + (if known then 1 else 0)
        && id == old(nextId) + (if known then 0 else 1)
        && nextId == id + 1
      ensures |devices| >= |old(devices)|
      ensures exists k :: 0 <= k < |devices| && devices[k].body.deviceId == payload.deviceId
      ensures forall k :: 0 <= k < |old(devices)| ==> NotOlder(devices[k].body.lastSeen, old(devices)[k].body.lastSeen)
    {
      var data := payload;
      if data.timestamp.None? {
        var now := Now();
        data := data.(timestamp := Some(now));
      }
      if data.aqi.None? {
        data := data.(aqi := ComputeAqi(Some(data.pm25), Some(data.pm10)));
      }
      assert data == Normalize(payload, old(clock));

      ghost var heartbeatAt, freshId := clock, nextId;
      RegistryValidLater(devices, old(clock), nextId, heartbeatAt, nextId);
      HeartbeatKeepsValid(devices, data.deviceId, heartbeatAt, freshId);
      HeartbeatKeepsIdsUnique(devices, data.deviceId, heartbeatAt, freshId);
      ghost var before := devices;
      var existing := FindDevice(devices, data.deviceId);
      if existing.Some? {
        var now := Now();
        devices := Touch(devices, existing.value, now);
      } else {
        var deviceDocId := NewId();
        devices := devices + [Doc(deviceDocId, DefaultDevice(data.deviceId))];
      }
      assert devices == Heartbeat(before, data.deviceId, heartbeatAt, freshId);

      id := NewId();
      AppendKeepsValid(readings, Doc(id, data), id);
      readings := readings + [Doc(id, data)];
      RegistryValidLater(devices, heartbeatAt + (if existing.Some? then 1 else 0), freshId + (if existing.Some? then 0 else 1), clock, nextId);
      ScopesValidLater(thresholds, old(nextId), nextId);
      QueueValidLater(commands, old(clock), old(nextId), clock, nextId);
    }

    /**
     * `GET /api/readings/latest`: at most `limit` readings (all when `limit` is 0),
     * of the given device when one is named, newest first, and none left out that
     * is newer than one returned.
     */
    method GetLatestReadings(deviceId: Option<string>, limit: int) returns (result: seq<ReadingDoc>)
      ensures |result| == Cap(limit, |Select(readings, deviceId)|)
      ensures limit > 0 ==> |result| <= limit
      ensures multiset(result) <= multiset(readings)
      ensures deviceId.Some? && deviceId.value != "" ==> forall i :: 0 <= i < |result| ==> result[i].body.deviceId == deviceId.value
      ensures NewestFirst(result)
      ensures forall x :: x in readings && Selects(deviceId, x) && x !in result ==>
        forall i :: 0 <= i < |result| ==> NotOlder(result[i].body.timestamp, x.body.timestamp)
    {
      var matching := Select(readings, deviceId);
      var sorted := SortNewestFirst(matching);
      result := sorted[..Cap(limit, |sorted|)];
      LatestSpec(readings, deviceId, limit);
    }

    /** `GET /api/devices`: every device record in store order, one per `device_id`. */
    method ListDevices() returns (result: seq<DeviceDoc>)
      requires Valid()
      ensures result == devices
      ensures UniqueDeviceIds(result)
      ensures forall k :: 0 <= k < |result| ==> ValidDevice(result[k].body)
    {
      result := devices;
    }

    /**
     * `POST /api/thresholds`: replace the whole record at the scope the record's
     * `device_id` selects, inserting one when the scope matches nothing.
     */
    method SetThresholds(th: Thresholds)
      requires Valid() && ValidThresholds(th)
      modifies this
      ensures Valid()
      ensures devices == old(devices) && readings == old(readings) && commands == old(commands) && clock == old(clock)
      ensures thresholds == SetScoped(old(thresholds), th, old(nextId))
      ensures nextId == old(nextId) + (if FindFirst(old(thresholds), ScopeOf(th.deviceId)).None? then 1 else 0)
      ensures ScopeOf(th.deviceId).DeviceIs? ==> Resolve(thresholds, th.deviceId).0 == th
      ensures ScopeOf(th.deviceId) == NoDeviceField ==> thresholds == old(thresholds) + [Doc(old(nextId), Dump(th))]
      ensures forall other :: ScopeOf(other) != ScopeOf(th.deviceId) ==> Resolve(thresholds, other) == Resolve(old(thresholds), other)
    {
      ghost var before := thresholds;
      UpsertKeepsInvariant(thresholds, th, nextId);
      if ScopeOf(th.deviceId).DeviceIs? {
        DeviceRoundTrip(thresholds, th, nextId);
      } else {
        GlobalWriteNotReadBack(thresholds, th, nextId, th.deviceId);
      }
      forall other | ScopeOf(other) != ScopeOf(th.deviceId)
        ensures Resolve(SetScoped(before, th, old(nextId)), other) == Resolve(before, other)
      {
        OtherScopesUnchanged(before, th, old(nextId), other);
      }

      var scope := ScopeOf(th.deviceId);
      var found := FindFirst(thresholds, scope);
      if found.Some? {
        thresholds := thresholds[found.value := Doc(thresholds[found.value].id, Dump(th))];
        ScopesValidLater(thresholds, old(nextId) + 1, nextId + 1);
      } else {
        var id := NewId();
        thresholds := thresholds + [Doc(id, Dump(th))];
      }
      RegistryValidLater(devices, clock, old(nextId), clock, nextId);
      ReadingsValidLater(readings, old(nextId), nextId);
      QueueValidLater(commands, clock, old(nextId), clock, nextId);
    }

    /**
     * `GET /api/thresholds`: the record stored at the requested scope, or the
     * schema defaults tagged with the requested `device_id`. A per-device read
     * never returns another scope's record, and a global read finds no record.
     */
    method GetThresholds(deviceId: Option<string>) returns (th: Thresholds, id: Option<DocId>)
      requires Valid()
      ensures (th, id) == Resolve(thresholds, deviceId)
      ensures ValidThresholds(th)
      ensures id.None? ==> th == DefaultThresholds(deviceId)
      ensures ScopeOf(deviceId).DeviceIs? ==> th.deviceId == deviceId
      ensures ScopeOf(deviceId) == NoDeviceField ==> th == DefaultThresholds(deviceId) && id.None?
    {
      var doc := Lookup(thresholds, ScopeOf(deviceId));
      if doc.None? {
        th, id := DefaultThresholds(deviceId), None;
      } else {
        th, id := Load(doc.value.body), Some(doc.value.id);
      }
    }

    /**
     * `POST /api/commands`: stamp the command and append it; it joins the back of
     * its device's queue. Whether the device is known is not checked.
     */
    method PushCommand(cmd: DeviceCommand) returns (id: DocId)
      requires Valid() && ValidCommand(cmd)
      modifies this
      ensures Valid()
      ensures devices == old(devices) && readings == old(readings) && thresholds == old(thresholds)
      ensures id == old(nextId) && nextId == old(nextId) + 1 && clock == old(clock) + 1
      ensures commands == old(commands) + [Doc(id, QueuedCommand(cmd, old(clock)))]
      ensures Queue(cmd.deviceId) == old(Queue(cmd.deviceId)) + [Doc(id, QueuedCommand(cmd, old(clock)))]
      ensures forall e :: e != cmd.deviceId ==> Queue(e) == old(Queue(e))
    {
      var now := Now();
      id := NewId();
      PushSpec(commands, cmd, now, id);
      commands := commands + [Doc(id, QueuedCommand(cmd, now))];
      RegistryValidLater(devices, old(clock), old(nextId), clock, nextId);
      ReadingsValidLater(readings, old(nextId), nextId);
      ScopesValidLater(thresholds, old(nextId), nextId);
    }

    /**
     * `GET /api/commands/next`: remove and return the command for `d` with the
     * earliest `created_at`, which is the head of `d`'s queue; with nothing
     * pending, return nothing and change nothing.
     */
    method NextCommand(d: string) returns (cmd: Option<CommandDoc>)
      requires Valid()
      modifies this
      ensures Valid()
      ensures devices == old(devices) && readings == old(readings) && thresholds == old(thresholds)
      ensures clock == old(clock) && nextId == old(nextId)
      ensures cmd.None? <==> old(Queue(d)) == []
      ensures cmd.None? ==> commands == old(commands)
      ensures cmd.Some? ==> cmd.value == old(Queue(d))[0] && Queue(d) == old(Queue(d))[1..]
      ensures cmd.Some? ==> cmd.value in old(commands) && DeviceOf(cmd.value) == d
      ensures cmd.Some? ==> forall c :: c in old(commands) && DeviceOf(c) == d ==> cmd.value.body.createdAt <= c.body.createdAt
      ensures cmd.Some? ==> multiset(commands) == multiset(old(commands)) - multiset{cmd.value}
      ensures cmd.Some? ==> forall c :: c in commands ==> c.id != cmd.value.id
      ensures forall e :: e != d ==> Queue(e) == old(Queue(e))
    {
      PendingEmpty(commands, d);
      var found := Oldest(commands, d);
      if found.None? {
        return None;
      }
      var doc := commands[found.value];
      PollSpec(commands, d, clock, nextId);
      commands := DeleteById(commands, doc.id);
      cmd := Some(doc);
    }
  }

  /**
   * Two readings from one new device: one device record results, and each stored
   * reading carries the derived index, 50 for (10, 5) and 500 for (200, 0).
   */
  method IngestScenario() returns (first: SensorReading, second: SensorReading, deviceCount: nat)
    ensures first.aqi == Some(50) && second.aqi == Some(500)
    ensures first.timestamp.Some? && second.timestamp.Some?
    ensures deviceCount == 1
  {
    var store := new Store();
    var a := store.IngestReading(SensorReading("d1", 10.0, 5.0, None, None, None, None, None, None));
    HeartbeatNewDevice([], "d1", 0, 0);
    var b := store.IngestReading(SensorReading("d1", 200.0, 0.0, None, None, None, None, None, None));
    AqiExamples();
    first, second, deviceCount := store.readings[0].body, store.readings[1].body, |store.devices|;
  }

  /**
   * Two commands queued for "d1" come back in the order they were pushed, each
   * once, and a third poll finds the queue empty.
   */
  method CommandScenario() returns (first: Option<CommandDoc>, second: Option<CommandDoc>, third: Option<CommandDoc>)
    ensures first.Some? && first.value.body.command.fanSpeed == Some(3)
    ensures second.Some? && second.value.body.command.power == Some(false)
    ensures third.None?
  {
    var store := new Store();
    var a := store.PushCommand(DeviceCommand("d1", None, None, Some(3)));
    var b := store.PushCommand(DeviceCommand("d1", Some(false), None, None));
    first := store.NextCommand("d1");
    second := store.NextCommand("d1");
    third := store.NextCommand("d1");
  }
}
