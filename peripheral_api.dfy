/**
 * The peripheral endpoints of backend/app/api/peripheral.py: the list of a
 * device's free GPIO pins, attaching a peripheral to a section or to a farm
 * through its validation chain, and the soft delete of a mapping with its
 * schedules. Tenant access checks are not modelled.
 */
module PeripheralApi {
  import opened Wrappers
  import opened Records
  import opened Store
  import opened Pins
  import opened SoftDelete

  /** What a mapping is attached to: the path parameter of the two attach endpoints. */
  datatype Target = SectionTarget(sectionId: int) | FarmTarget(farmId: int)

  predicate IsLiveDevice(devices: seq<Device>, id: int) {
    IsId(devices, id) && !Row(devices, id).isDeleted
  }

  /** The mapping is attached to the target (the column the endpoint filters on equals its id). */
  predicate AttachedTo(m: Mapping, target: Target) {
    match target
    case SectionTarget(s) => m.sectionId == Some(s)
    case FarmTarget(f) => m.farmId == Some(f)
  }

  /** The gpio_pin of each live mapping of the device. */
  function UsedPins(mappings: seq<Mapping>, deviceId: int): set<int> {
    set k | 0 <= k < |mappings| && mappings[k].deviceId == deviceId && !mappings[k].isDeleted :: mappings[k].gpioPin
  }

  /** Some live mapping of the device holds the pin. */
  predicate PinInUse(mappings: seq<Mapping>, deviceId: int, pin: int) {
    exists k :: 0 <= k < |mappings| && !mappings[k].isDeleted && mappings[k].deviceId == deviceId && mappings[k].gpioPin == pin
  }

  /** Some live mapping of this type is attached to the target. */
  predicate TypeAttached(mappings: seq<Mapping>, target: Target, typeId: int) {
    exists k :: 0 <= k < |mappings| && !mappings[k].isDeleted && AttachedTo(mappings[k], target) && mappings[k].typeId == typeId
  }

  /**
   * available_gpio_pins: 404 unless the device is live; otherwise the pins
   * its column lists, in order, less those a live mapping of the device holds.
   */
  function AvailablePins(devices: seq<Device>, mappings: seq<Mapping>, deviceId: int): (r: Result<seq<nat>, Failure>)
    ensures r.Failure? <==> !IsLiveDevice(devices, deviceId)
    ensures r.Failure? ==> r.error == NotFound(DeviceMissingDetail)
    ensures r.Success? ==> forall p :: p in r.value <==>
      (p in ParsePins(Row(devices, deviceId).availableGpioPins) && !PinInUse(mappings, deviceId, p))
    ensures r.Success? ==> r.value == WithoutUsed(ParsePins(Row(devices, deviceId).availableGpioPins), UsedPins(mappings, deviceId))
  {
    if !IsLiveDevice(devices, deviceId) then Failure(NotFound(DeviceMissingDetail))
    else
      var used := UsedPins(mappings, deviceId);
      assert forall p :: p in used <==> PinInUse(mappings, deviceId, p);
      Success(WithoutUsed(ParsePins(Row(devices, deviceId).availableGpioPins), used))
  }

  /**
   * The offered pins keep the column's order and repeats: a column made of
   * two comma-separated parts offers the first part's free pins, then the
   * second's.
   */
  lemma AvailablePinsKeepOrder(devices: seq<Device>, mappings: seq<Mapping>, deviceId: int, c1: string, c2: string)
    requires IsLiveDevice(devices, deviceId)
    requires Row(devices, deviceId).availableGpioPins == Some(c1 + [','] + c2)
    ensures var used := UsedPins(mappings, deviceId);
      AvailablePins(devices, mappings, deviceId)
        == Success(WithoutUsed(ParsePins(Some(c1)), used) + WithoutUsed(ParsePins(Some(c2)), used))
  {
    ParsePinsAppend(c1, c2);
    WithoutUsedAppend(ParsePins(Some(c1)), ParsePins(Some(c2)), UsedPins(mappings, deviceId));
  }

  /** A device whose column lists no pins offers none. */
  lemma NoListedPinsNoneAvailable(devices: seq<Device>, mappings: seq<Mapping>, deviceId: int)
    requires IsLiveDevice(devices, deviceId)
    requires Row(devices, deviceId).availableGpioPins == None || Row(devices, deviceId).availableGpioPins == Some("")
    ensures AvailablePins(devices, mappings, deviceId) == Success([])
  {
    NoPinsListed();
    assert ParsePins(Row(devices, deviceId).availableGpioPins) == [];
  }

  /** A device with no live mapping offers every listed pin, in the listed order. */
  lemma UnusedDeviceOffersAllPins(devices: seq<Device>, mappings: seq<Mapping>, deviceId: int)
    requires IsLiveDevice(devices, deviceId)
    requires forall k :: 0 <= k < |mappings| && !mappings[k].isDeleted ==> mappings[k].deviceId != deviceId
    ensures AvailablePins(devices, mappings, deviceId) == Success(ParsePins(Row(devices, deviceId).availableGpioPins))
  {
    var pins := ParsePins(Row(devices, deviceId).availableGpioPins);
    assert UsedPins(mappings, deviceId) == {};
    WithoutUsedNoneUsed(pins, {});
  }

  /** The target is a live section (is_deleted unset) or a live farm (deleted unset). */
  predicate TargetLive(sections: seq<Section>, farms: seq<Farm>, target: Target) {
    match target
    case SectionTarget(s) => IsId(sections, s) && !Row(sections, s).isDeleted
    case FarmTarget(f) => IsId(farms, f) && !Row(farms, f).deleted
  }

  /** The scope a peripheral type must have to attach to the target. */
  function ScopeOf(target: Target): string {
    if target.SectionTarget? then "section" else "farm"
  }

  function TargetWord(target: Target): string {
    if target.SectionTarget? then "section" else "farm"
  }

  /** The details of the attach endpoints' failures. */
  const RequiredDetail := "device_id, peripheral_type_id, and gpio_pin are required"
  const PinTakenDetail := "This GPIO pin is already in use on this device."
  const PinUnlistedDetail := "GPIO pin not available on this device."
  const DeviceMissingDetail := "Device not found"

  function MissingTargetDetail(target: Target): string {
    if target.SectionTarget? then "Section not found" else "Farm not found"
  }

  function TypeTakenDetail(target: Target): string {
    "A peripheral of this type is already attached to this " + TargetWord(target) + "."
  }

  function WrongTypeDetail(target: Target): string {
    "Invalid peripheral type for " + TargetWord(target) + "."
  }

  /** The mapping an accepted request inserts: exactly one of section_id and farm_id is set. */
  function NewMapping(target: Target, deviceId: int, typeId: int, pin: int): Mapping {
    match target
    case SectionTarget(s) => Mapping(deviceId, None, Some(s), typeId, pin, false)
    case FarmTarget(f) => Mapping(deviceId, Some(f), None, typeId, pin, false)
  }

  /**
   * attach_section_peripheral and attach_farm_peripheral: the mapping to
   * insert, or the first check that fails, in the endpoints' order. The
   * request fields are optional integers; device_id and peripheral_type_id
   * must be truthy, gpio_pin only present (pin 0 is accepted).
   */
  function AttachOutcome(sections: seq<Section>, farms: seq<Farm>, devices: seq<Device>, types: seq<PeripheralType>,
                         mappings: seq<Mapping>, target: Target, deviceId: Option<int>, typeId: Option<int>, pin: Option<int>)
    : Result<Mapping, Failure>
  {
    if !TargetLive(sections, farms, target) then
      Failure(NotFound(MissingTargetDetail(target)))
    else if !(Truthy(deviceId) && Truthy(typeId) && pin.Some?) then
      Failure(BadRequest(RequiredDetail))
    else
      MappingChecks(devices, types, mappings, target, deviceId.value, typeId.value, pin.value)
  }

  /** The checks against existing mappings and the type table, once the request fields are present. */
  function MappingChecks(devices: seq<Device>, types: seq<PeripheralType>, mappings: seq<Mapping>,
                         target: Target, deviceId: int, typeId: int, pin: int): Result<Mapping, Failure>
  {
    if TypeAttached(mappings, target, typeId) then
      Failure(BadRequest(TypeTakenDetail(target)))
    else if PinInUse(mappings, deviceId, pin) then
      Failure(BadRequest(PinTakenDetail))
    else if !(IsId(types, typeId) && Row(types, typeId).scope == ScopeOf(target)) then
      Failure(BadRequest(WrongTypeDetail(target)))
    else
      DeviceChecks(devices, target, deviceId, typeId, pin)
  }

  /** The last two checks, against the device row: live, and listing the pin. */
  function DeviceChecks(devices: seq<Device>, target: Target, deviceId: int, typeId: int, pin: int): Result<Mapping, Failure> {
    if !IsLiveDevice(devices, deviceId) then
      Failure(NotFound(DeviceMissingDetail))
    else if pin !in ParsePins(Row(devices, deviceId).availableGpioPins) then
      Failure(BadRequest(PinUnlistedDetail))
    else
      Success(NewMapping(target, deviceId, typeId, pin))
  }

  /** The checks of both attach routes, in order: the mapping to insert or the first failure. */
  method ValidateAttach(db: Db, target: Target, deviceId: Option<int>, typeId: Option<int>, pin: Option<int>)
    returns (r: Result<Mapping, Failure>)
    ensures r == AttachOutcome(db.sections, db.farms, db.devices, db.types, db.mappings, target, deviceId, typeId, pin)
  {
    if !TargetLive(db.sections, db.farms, target) {
      return Failure(NotFound(MissingTargetDetail(target)));
    }
    if !(Truthy(deviceId) && Truthy(typeId) && pin.Some?) {
      return Failure(BadRequest(RequiredDetail));
    }
    r := CheckMappings(db, target, deviceId.value, typeId.value, pin.value);
  }

  method CheckMappings(db: Db, target: Target, deviceId: int, typeId: int, pin: int) returns (r: Result<Mapping, Failure>)
    ensures r == MappingChecks(db.devices, db.types, db.mappings, target, deviceId, typeId, pin)
  {
    if TypeAttached(db.mappings, target, typeId) {
      return Failure(BadRequest(TypeTakenDetail(target)));
    }
    if PinInUse(db.mappings, deviceId, pin) {
      return Failure(BadRequest(PinTakenDetail));
    }
    if !(IsId(db.types, typeId) && Row(db.types, typeId).scope == ScopeOf(target)) {
      return Failure(BadRequest(WrongTypeDetail(target)));
    }
    r := CheckDevice(db, target, deviceId, typeId, pin);
  }

  method CheckDevice(db: Db, target: Target, deviceId: int, typeId: int, pin: int) returns (r: Result<Mapping, Failure>)
    ensures r == DeviceChecks(db.devices, target, deviceId, typeId, pin)
  {
    if !IsLiveDevice(db.devices, deviceId) {
      return Failure(NotFound(DeviceMissingDetail));
    }
    var listed := ParsePins(Row(db.devices, deviceId).availableGpioPins);
    if pin !in listed {
      return Failure(BadRequest(PinUnlistedDetail));
    }
    r := Success(NewMapping(target, deviceId, typeId, pin));
  }

  /** The endpoint body shared by both attach routes: the checks, then the insert. */
  method Attach(db: Db, target: Target, deviceId: Option<int>, typeId: Option<int>, pin: Option<int>)
    returns (r: Result<int, Failure>)
    modifies db`mappings
    ensures var outcome := AttachOutcome(db.sections, db.farms, db.devices, db.types, old(db.mappings), target, deviceId, typeId, pin);
      && (r.Failure? <==> outcome.Failure?)
      && (r.Failure? ==> r.error == outcome.error && db.mappings == old(db.mappings))
      && (r.Success? ==> r.value == NextId(old(db.mappings)) && db.mappings == old(db.mappings) + [outcome.value])
  {
    var checked := ValidateAttach(db, target, deviceId, typeId, pin);
    if checked.Failure? {
      return Failure(checked.error);
    }
    r := Success(NextId(db.mappings));
    db.mappings := db.mappings + [checked.value];
  }

  /** attach_section_peripheral */
  method AttachSectionPeripheral(db: Db, sectionId: int, deviceId: Option<int>, typeId: Option<int>, pin: Option<int>)
    returns (r: Result<int, Failure>)
    modifies db`mappings
    ensures var outcome := AttachOutcome(db.sections, db.farms, db.devices, db.types, old(db.mappings),
                                         SectionTarget(sectionId), deviceId, typeId, pin);
      && (r.Failure? <==> outcome.Failure?)
      && (r.Failure? ==> r.error == outcome.error && db.mappings == old(db.mappings))
      && (r.Success? ==> r.value == NextId(old(db.mappings)) && db.mappings == old(db.mappings) + [outcome.value])
  {
    r := Attach(db, SectionTarget(sectionId), deviceId, typeId, pin);
  }

  /** attach_farm_peripheral */
  method AttachFarmPeripheral(db: Db, farmId: int, deviceId: Option<int>, typeId: Option<int>, pin: Option<int>)
    returns (r: Result<int, Failure>)
    modifies db`mappings
    ensures var outcome := AttachOutcome(db.sections, db.farms, db.devices, db.types, old(db.mappings),
                                         FarmTarget(farmId), deviceId, typeId, pin);
      && (r.Failure? <==> outcome.Failure?)
      && (r.Failure? ==> r.error == outcome.error && db.mappings == old(db.mappings))
      && (r.Success? ==> r.value == NextId(old(db.mappings)) && db.mappings == old(db.mappings) + [outcome.value])
  {
    r := Attach(db, FarmTarget(farmId), deviceId, typeId, pin);
  }

  /** What an accepted attach guarantees of the mapping it inserts. */
  lemma AttachAcceptedMeans(sections: seq<Section>, farms: seq<Farm>, devices: seq<Device>, types: seq<PeripheralType>,
                            mappings: seq<Mapping>, target: Target, deviceId: Option<int>, typeId: Option<int>, pin: Option<int>)
    requires AttachOutcome(sections, farms, devices, types, mappings, target, deviceId, typeId, pin).Success?
    ensures var m := AttachOutcome(sections, farms, devices, types, mappings, target, deviceId, typeId, pin).value;
      && TargetLive(sections, farms, target)
      && IsLiveDevice(devices, m.deviceId) && m.deviceId != 0
      && IsId(types, m.typeId) && Row(types, m.typeId).scope == ScopeOf(target)
      && m.gpioPin in ParsePins(Row(devices, m.deviceId).availableGpioPins)
      && !PinInUse(mappings, m.deviceId, m.gpioPin)
      && !TypeAttached(mappings, target, m.typeId)
      && AttachedTo(m, target) && !m.isDeleted
      && (m.sectionId.Some? <==> !m.farmId.Some?)
  {
  }

  /** At most one live mapping per (section, type), per (farm, type) and per (device, pin). */
  predicate Unique(mappings: seq<Mapping>) {
    forall k1, k2 :: 0 <= k1 < k2 < |mappings| && !mappings[k1].isDeleted && !mappings[k2].isDeleted ==>
      && !(mappings[k1].sectionId.Some? && mappings[k1].sectionId == mappings[k2].sectionId
           && mappings[k1].typeId == mappings[k2].typeId)
      && !(mappings[k1].farmId.Some? && mappings[k1].farmId == mappings[k2].farmId
           && mappings[k1].typeId == mappings[k2].typeId)
      && !(mappings[k1].deviceId == mappings[k2].deviceId && mappings[k1].gpioPin == mappings[k2].gpioPin)
  }

  /** An accepted attach keeps the uniqueness the checks enforce. */
  lemma AttachKeepsUnique(sections: seq<Section>, farms: seq<Farm>, devices: seq<Device>, types: seq<PeripheralType>,
                          mappings: seq<Mapping>, target: Target, deviceId: Option<int>, typeId: Option<int>, pin: Option<int>)
    requires Unique(mappings)
    requires AttachOutcome(sections, farms, devices, types, mappings, target, deviceId, typeId, pin).Success?
    ensures Unique(mappings + [AttachOutcome(sections, farms, devices, types, mappings, target, deviceId, typeId, pin).value])
  {
    var m := AttachOutcome(sections, farms, devices, types, mappings, target, deviceId, typeId, pin).value;
    AttachAcceptedMeans(sections, farms, devices, types, mappings, target, deviceId, typeId, pin);
    var ms := mappings + [m];
    forall k1, k2 | 0 <= k1 < k2 < |ms| && !ms[k1].isDeleted && !ms[k2].isDeleted
      ensures && !(ms[k1].sectionId.Some? && ms[k1].sectionId == ms[k2].sectionId && ms[k1].typeId == ms[k2].typeId)
              && !(ms[k1].farmId.Some? && ms[k1].farmId == ms[k2].farmId && ms[k1].typeId == ms[k2].typeId)
              && !(ms[k1].deviceId == ms[k2].deviceId && ms[k1].gpioPin == ms[k2].gpioPin)
    {
      if k2 == |mappings| {
        assert ms[k1] == mappings[k1] && ms[k2] == m;
      }
    }
  }

  /** A pin the device offers passes both pin checks of an attach: listed, and not held. */
  lemma AvailablePinPassesPinChecks(devices: seq<Device>, mappings: seq<Mapping>, deviceId: int, p: nat)
    requires AvailablePins(devices, mappings, deviceId).Success?
    requires p in AvailablePins(devices, mappings, deviceId).value
    ensures IsLiveDevice(devices, deviceId)
    ensures p in ParsePins(Row(devices, deviceId).availableGpioPins) && !PinInUse(mappings, deviceId, p)
  {
  }

  /** An attach that passes every other check is refused exactly when the pin is not among those offered. */
  lemma AttachAcceptsExactlyAvailablePins(sections: seq<Section>, farms: seq<Farm>, devices: seq<Device>,
                                          types: seq<PeripheralType>, mappings: seq<Mapping>, target: Target,
                                          deviceId: int, typeId: int, pin: nat)
    requires TargetLive(sections, farms, target) && deviceId != 0 && typeId != 0
    requires !TypeAttached(mappings, target, typeId)
    requires IsId(types, typeId) && Row(types, typeId).scope == ScopeOf(target)
    requires IsLiveDevice(devices, deviceId)
    ensures AttachOutcome(sections, farms, devices, types, mappings, target, Some(deviceId), Some(typeId), Some(pin)).Success?
        <==> pin in AvailablePins(devices, mappings, deviceId).value
  {
  }

  /** Appending a mapping keeps every live schedule attached to a live mapping. */
  lemma AttachKeepsLiveLinks(mappings: seq<Mapping>, schedules: seq<Schedule>, m: Mapping)
    requires LiveSchedulesHaveLiveMappings(mappings, schedules)
    ensures LiveSchedulesHaveLiveMappings(mappings + [m], schedules)
  {
    forall j | 0 <= j < |schedules| && !schedules[j].isDeleted
      ensures IsId(mappings + [m], schedules[j].mappingId) && !Row(mappings + [m], schedules[j].mappingId).isDeleted
    {
      assert Row(mappings + [m], schedules[j].mappingId) == Row(mappings, schedules[j].mappingId);
    }
  }

  /**
   * delete_peripheral_mapping: 404 unless the mapping is live; otherwise the
   * mapping and each of its live schedules are marked deleted.
   */
  method DeletePeripheralMapping(db: Db, mappingId: int) returns (r: Result<int, Failure>)
    modifies db`mappings, db`schedules
    ensures r.Failure? <==> !(IsId(old(db.mappings), mappingId) && !Row(old(db.mappings), mappingId).isDeleted)
    ensures r.Failure? ==> r.error == NotFound("Mapping not found")
                           && db.mappings == old(db.mappings) && db.schedules == old(db.schedules)
    ensures r.Success? ==> && r.value == mappingId
                           && db.mappings == MarkMappings(old(db.mappings), {mappingId})
                           && db.schedules == MarkSchedulesOf(old(db.schedules), {mappingId})
  {
    if !(IsId(db.mappings, mappingId) && !Row(db.mappings, mappingId).isDeleted) {
      return Failure(NotFound("Mapping not found"));
    }
    assert Elems([mappingId]) == {mappingId} by {
      assert [mappingId][0] == mappingId;
    }
    Cascade(db, [mappingId]);
    r := Success(mappingId);
  }

  /** After a mapping is deleted none of its schedules is live, and no other mapping or schedule changed. */
  lemma DeleteMappingEffect(mappings: seq<Mapping>, schedules: seq<Schedule>, mappingId: int)
    requires IsId(mappings, mappingId)
    ensures Row(MarkMappings(mappings, {mappingId}), mappingId).isDeleted
    ensures forall j :: 0 <= j < |schedules| && schedules[j].mappingId == mappingId ==>
      MarkSchedulesOf(schedules, {mappingId})[j].isDeleted
    ensures forall k :: 0 <= k < |mappings| && k + 1 != mappingId ==> MarkMappings(mappings, {mappingId})[k] == mappings[k]
    ensures forall j :: 0 <= j < |schedules| && schedules[j].mappingId != mappingId ==>
      MarkSchedulesOf(schedules, {mappingId})[j] == schedules[j]
  {
  }
}
