/**
 * The device endpoints of backend/app/api/device.py: create under the
 * one-live-device-per-farm rule, update of the supplied fields (with no
 * deleted filter and no re-check of that rule), and soft delete.
 *
 * devices.farm_id is a foreign key to farms.id: a farm_id naming no farm row
 * (deleted or not) makes the commit fail, which the endpoints do not catch.
 *
 * Every route answers with the committed row as DeviceOut, whose status is a
 * required string. A row whose status is NULL (the worker stores one for a
 * status message carrying "status": null) fails that validation after the
 * commit: the write stays and the reply is a server error.
 */
module DeviceApi {
  import opened Wrappers
  import opened Records
  import opened Store

  const OneDeviceDetail := "A device already exists for this farm. Only one non-deleted device is allowed per farm."
  const ForeignKeyDetail := "foreign key violation on devices.farm_id"
  const ResponseDetail := "response validation failed: DeviceOut.status is not a string"

  /** The reply built from a committed row: the row, or a server error when its status is NULL. */
  function Respond(d: Device): (r: Result<Device, Failure>)
    ensures r.Failure? <==> d.status.None?
    ensures r.Failure? ==> r.error == ServerError(ResponseDetail)
    ensures r.Success? ==> r.value == d
  {
    if d.status.None? then Failure(ServerError(ResponseDetail)) else Success(d)
  }

  /** A create or update request; an optional field left unset is None. */
  datatype DeviceCreate = DeviceCreate(
    farmId: int,
    deviceUid: string,
    status: Option<string>,
    firmwareVersion: Option<string>,
    availableGpioPins: Option<string>)

  /** Some live device is registered to the farm. */
  predicate FarmHasLiveDevice(devices: seq<Device>, farmId: int) {
    exists k :: 0 <= k < |devices| && !devices[k].isDeleted && devices[k].farmId == farmId
  }

  /** At most one live device per farm. */
  predicate OneLivePerFarm(devices: seq<Device>) {
    forall k1, k2 ::
      (0 <= k1 < k2 < |devices| && !devices[k1].isDeleted && !devices[k2].isDeleted) ==>
        devices[k1].farmId != devices[k2].farmId
  }

  /**
   * create_device: 400 if the farm already has a live device; otherwise the
   * row built from the supplied fields, status "offline" when unset, never
   * seen, not deleted.
   */
  function CreateOutcome(farms: seq<Farm>, devices: seq<Device>, req: DeviceCreate): Result<Device, Failure> {
    if FarmHasLiveDevice(devices, req.farmId) then Failure(BadRequest(OneDeviceDetail))
    else if !IsId(farms, req.farmId) then Failure(ServerError(ForeignKeyDetail))
    else Success(Device(req.farmId, req.deviceUid, Some(req.status.GetOr("offline")), req.firmwareVersion, None, false,
                        req.availableGpioPins))
  }

  method CreateDevice(db: Db, req: DeviceCreate) returns (r: Result<int, Failure>)
    modifies db`devices
    ensures var outcome := CreateOutcome(db.farms, old(db.devices), req);
      && (r.Failure? <==> outcome.Failure?)
      && (r.Failure? ==> r.error == outcome.error && db.devices == old(db.devices))
      && (r.Success? ==> r.value == NextId(old(db.devices)) && db.devices == old(db.devices) + [outcome.value])
  {
    if FarmHasLiveDevice(db.devices, req.farmId) {
      return Failure(BadRequest(OneDeviceDetail));
    }
    if !IsId(db.farms, req.farmId) {
      return Failure(ServerError(ForeignKeyDetail));
    }
    r := Success(NextId(db.devices));
    db.devices := db.devices + [Device(req.farmId, req.deviceUid, Some(req.status.GetOr("offline")), req.firmwareVersion,
                                       None, false, req.availableGpioPins)];
  }

  /** An accepted create keeps at most one live device per farm, and the new device carries exactly the request. */
  lemma CreateKeepsOneLivePerFarm(farms: seq<Farm>, devices: seq<Device>, req: DeviceCreate)
    requires OneLivePerFarm(devices)
    requires CreateOutcome(farms, devices, req).Success?
    ensures OneLivePerFarm(devices + [CreateOutcome(farms, devices, req).value])
    ensures var d := CreateOutcome(farms, devices, req).value;
      && d.farmId == req.farmId && d.deviceUid == req.deviceUid
      && d.status == Some(if req.status.Some? then req.status.value else "offline")
      && d.lastSeen.None? && !d.isDeleted
  {
    var d := CreateOutcome(farms, devices, req).value;
    var ds := devices + [d];
    forall k1, k2 | 0 <= k1 < k2 < |ds| && !ds[k1].isDeleted && !ds[k2].isDeleted
      ensures ds[k1].farmId != ds[k2].farmId
    {
      if k2 == |devices| {
        assert ds[k1] == devices[k1] && ds[k2] == d;
      }
    }
  }

  /** The row after the setattr loop: farm_id and device_uid always, the optional fields when supplied. */
  function Patched(d: Device, req: DeviceCreate): Device {
    d.(farmId := req.farmId,
       deviceUid := req.deviceUid,
       status := if req.status.Some? then req.status else d.status,
       firmwareVersion := if req.firmwareVersion.Some? then req.firmwareVersion else d.firmwareVersion,
       availableGpioPins := if req.availableGpioPins.Some? then req.availableGpioPins else d.availableGpioPins)
  }

  /**
   * update_device up to the commit: 404 only for an id with no row (deleted
   * devices are updated too), the foreign-key failure, or the row to write.
   */
  function UpdateOutcome(farms: seq<Farm>, devices: seq<Device>, deviceId: int, req: DeviceCreate): Result<Device, Failure> {
    if !IsId(devices, deviceId) then Failure(NotFound("Device not found"))
    else if !IsId(farms, req.farmId) then Failure(ServerError(ForeignKeyDetail))
    else Success(Patched(Row(devices, deviceId), req))
  }

  /** update_device: a failure before the commit writes nothing; otherwise the row is written, then answered. */
  method UpdateDevice(db: Db, deviceId: int, req: DeviceCreate) returns (r: Result<Device, Failure>)
    modifies db`devices
    ensures var w := UpdateOutcome(db.farms, old(db.devices), deviceId, req);
      && (w.Failure? ==> r == w && db.devices == old(db.devices))
      && (w.Success? ==> r == Respond(w.value) && db.devices == old(db.devices)[deviceId - 1 := w.value])
  {
    if !IsId(db.devices, deviceId) {
      return Failure(NotFound("Device not found"));
    }
    if !IsId(db.farms, req.farmId) {
      return Failure(ServerError(ForeignKeyDetail));
    }
    var updated := Patched(Row(db.devices, deviceId), req);
    db.devices := db.devices[deviceId - 1 := updated];
    r := Respond(updated);
  }

  /**
   * An update that leaves the status unset on a device whose status is NULL
   * commits its change and still answers with a server error.
   */
  lemma NullStatusUpdateCommitsThenFails(farms: seq<Farm>, devices: seq<Device>, deviceId: int, req: DeviceCreate)
    requires IsId(devices, deviceId) && IsId(farms, req.farmId)
    requires Row(devices, deviceId).status.None? && req.status.None?
    ensures UpdateOutcome(farms, devices, deviceId, req).Success?
    ensures UpdateOutcome(farms, devices, deviceId, req).value.farmId == req.farmId
    ensures Respond(UpdateOutcome(farms, devices, deviceId, req).value) == Failure(ServerError(ResponseDetail))
  {
  }

  /** A supplied status always gives a reply carrying the written row. */
  lemma SuppliedStatusUpdateAnswers(farms: seq<Farm>, devices: seq<Device>, deviceId: int, req: DeviceCreate)
    requires UpdateOutcome(farms, devices, deviceId, req).Success? && req.status.Some?
    ensures Respond(UpdateOutcome(farms, devices, deviceId, req).value) == UpdateOutcome(farms, devices, deviceId, req)
    ensures UpdateOutcome(farms, devices, deviceId, req).value.status == req.status
  {
  }

  /** An update sets the supplied fields and leaves last_seen and is_deleted alone. */
  lemma UpdateChangesOnlySupplied(farms: seq<Farm>, devices: seq<Device>, deviceId: int, req: DeviceCreate)
    requires UpdateOutcome(farms, devices, deviceId, req).Success?
    ensures var d := Row(devices, deviceId);
      var e := UpdateOutcome(farms, devices, deviceId, req).value;
      && e.farmId == req.farmId && e.deviceUid == req.deviceUid
      && e.status == (if req.status.Some? then req.status else d.status)
      && e.firmwareVersion == (if req.firmwareVersion.Some? then req.firmwareVersion else d.firmwareVersion)
      && e.availableGpioPins == (if req.availableGpioPins.Some? then req.availableGpioPins else d.availableGpioPins)
      && e.lastSeen == d.lastSeen && e.isDeleted == d.isDeleted
  {
  }

  /** Update does not re-check the rule: moving a live device onto a farm that has one leaves two. */
  lemma UpdateCanBreakOneLivePerFarm()
    ensures var farms := [Farm(1, "a", "A", None, None, "o", false), Farm(1, "b", "B", None, None, "o", false)];
      var devices := [Device(1, "d1", Some("online"), None, None, false, None),
                      Device(2, "d2", Some("online"), None, None, false, None)];
      var req := DeviceCreate(1, "d2", None, None, None);
      && OneLivePerFarm(devices)
      && UpdateOutcome(farms, devices, 2, req).Success?
      && !OneLivePerFarm(devices[1 := UpdateOutcome(farms, devices, 2, req).value])
  {
    var devices := [Device(1, "d1", Some("online"), None, None, false, None),
                    Device(2, "d2", Some("online"), None, None, false, None)];
    var farms := [Farm(1, "a", "A", None, None, "o", false), Farm(1, "b", "B", None, None, "o", false)];
    var req := DeviceCreate(1, "d2", None, None, None);
    var after := devices[1 := UpdateOutcome(farms, devices, 2, req).value];
    assert after[0].farmId == after[1].farmId == 1;
  }

  /**
   * delete_device: 404 unless the device is live, with nothing written;
   * otherwise only is_deleted is set and committed, and the row is answered
   * (a server error when its status is NULL, the flag staying set).
   */
  method DeleteDevice(db: Db, deviceId: int) returns (r: Result<Device, Failure>)
    modifies db`devices
    ensures var live := IsId(old(db.devices), deviceId) && !Row(old(db.devices), deviceId).isDeleted;
      && (!live ==> r == Failure(NotFound("Device not found")) && db.devices == old(db.devices))
      && (live ==> var deleted := Row(old(db.devices), deviceId).(isDeleted := true);
                   && db.devices == old(db.devices)[deviceId - 1 := deleted]
                   && r == Respond(deleted))
  {
    if !(IsId(db.devices, deviceId) && !Row(db.devices, deviceId).isDeleted) {
      return Failure(NotFound("Device not found"));
    }
    var deleted := Row(db.devices, deviceId).(isDeleted := true);
    db.devices := db.devices[deviceId - 1 := deleted];
    r := Respond(deleted);
  }

  /** Deleting a device keeps at most one live device per farm, and frees its farm for a new one. */
  lemma DeleteKeepsOneLivePerFarm(devices: seq<Device>, deviceId: int)
    requires OneLivePerFarm(devices)
    requires IsId(devices, deviceId) && !Row(devices, deviceId).isDeleted
    ensures var after := devices[deviceId - 1 := Row(devices, deviceId).(isDeleted := true)];
      && OneLivePerFarm(after)
      && !FarmHasLiveDevice(after, Row(devices, deviceId).farmId)
  {
    var after := devices[deviceId - 1 := Row(devices, deviceId).(isDeleted := true)];
    var f := Row(devices, deviceId).farmId;
    forall k | 0 <= k < |after| && !after[k].isDeleted
      ensures after[k].farmId != f
    {
      assert k != deviceId - 1 && after[k] == devices[k];
      if k < deviceId - 1 {
        assert devices[k].farmId != devices[deviceId - 1].farmId;
      } else {
        assert devices[deviceId - 1].farmId != devices[k].farmId;
      }
    }
  }
}
