/**
 * The farm endpoints of backend/app/api/farm.py: create with the tenant
 * rules and the per-tenant farm_code uniqueness rule, update of the supplied
 * fields, and the soft delete that cascades to the farm's sections, to the
 * mappings of the farm and of those sections, and to their schedules.
 */
module FarmApi {
  import opened Wrappers
  import opened Records
  import opened Store
  import opened SoftDelete

  const DuplicateCode := "Farm code must be unique within the tenant"

  /** The signed-in user as far as farm creation cares: a role and, for a tenant admin, a tenant. */
  datatype User = User(role: Role, tenantId: Option<int>)

  /** The fields of a create request (total_area is not modelled). */
  datatype FarmCreate = FarmCreate(
    tenantId: Option<int>,
    name: string,
    farmCode: string,
    description: Option<string>,
    location: Option<string>,
    farmOwnerName: string)

  /** The fields an update request supplies; None is a field left unset. */
  datatype FarmUpdate = FarmUpdate(
    name: Option<string>,
    farmCode: Option<string>,
    description: Option<string>,
    location: Option<string>,
    farmOwnerName: Option<string>)

  predicate IsLiveFarm(farms: seq<Farm>, id: int) {
    IsId(farms, id) && !Row(farms, id).deleted
  }

  /** A live farm of the tenant, other than `exclude`, already uses the code. */
  predicate CodeTaken(farms: seq<Farm>, tenantId: int, code: string, exclude: int) {
    exists k :: 0 <= k < |farms| && !farms[k].deleted && farms[k].tenantId == tenantId
      && farms[k].farmCode == code && k + 1 != exclude
  }

  /** No two live farms of one tenant share a farm_code. */
  predicate CodesUnique(farms: seq<Farm>) {
    forall k1, k2 ::
      (0 <= k1 < k2 < |farms| && !farms[k1].deleted && !farms[k2].deleted
       && farms[k1].tenantId == farms[k2].tenantId) ==> farms[k1].farmCode != farms[k2].farmCode
  }

  /** The tenant the farm is created in: the request's for a super admin, the user's own otherwise. */
  function TenantOf(user: User, req: FarmCreate): Option<int> {
    if user.role.SuperAdmin? then req.tenantId else user.tenantId
  }

  /**
   * create_farm: a super admin must give a truthy tenant_id (400); the
   * tenant must exist (404, whether active or not); the code must be free
   * among the tenant's live farms (400).
   */
  function CreateOutcome(tenants: seq<Tenant>, farms: seq<Farm>, user: User, req: FarmCreate): Result<Farm, Failure> {
    if user.role.SuperAdmin? && !Truthy(req.tenantId) then Failure(BadRequest("Tenant ID is required for super admin"))
    else
      var tenantId := TenantOf(user, req);
      if !(tenantId.Some? && IsId(tenants, tenantId.value)) then Failure(NotFound("Tenant not found"))
      else if CodeTaken(farms, tenantId.value, req.farmCode, 0) then Failure(BadRequest(DuplicateCode))
      else Success(Farm(tenantId.value, req.name, req.farmCode, req.description, req.location, req.farmOwnerName, false))
  }

  method CreateFarm(db: Db, user: User, req: FarmCreate) returns (r: Result<int, Failure>)
    modifies db`farms
    ensures var outcome := CreateOutcome(db.tenants, old(db.farms), user, req);
      && (r.Failure? <==> outcome.Failure?)
      && (r.Failure? ==> r.error == outcome.error && db.farms == old(db.farms))
      && (r.Success? ==> r.value == NextId(old(db.farms)) && db.farms == old(db.farms) + [outcome.value])
  {
    var tenantId: Option<int>;
    if user.role.SuperAdmin? {
      if !Truthy(req.tenantId) {
        return Failure(BadRequest("Tenant ID is required for super admin"));
      }
      tenantId := req.tenantId;
    } else {
      tenantId := user.tenantId;
    }
    if !(tenantId.Some? && IsId(db.tenants, tenantId.value)) {
      return Failure(NotFound("Tenant not found"));
    }
    if CodeTaken(db.farms, tenantId.value, req.farmCode, 0) {
      return Failure(BadRequest(DuplicateCode));
    }
    r := Success(NextId(db.farms));
    db.farms := db.farms + [Farm(tenantId.value, req.name, req.farmCode, req.description, req.location, req.farmOwnerName, false)];
  }

  /** Who decides the tenant: a tenant admin always creates in their own tenant, whatever the request says. */
  lemma CreatePlacesFarmInTenant(tenants: seq<Tenant>, farms: seq<Farm>, user: User, req: FarmCreate)
    ensures user.role.SuperAdmin? && !Truthy(req.tenantId) ==>
      CreateOutcome(tenants, farms, user, req) == Failure(BadRequest("Tenant ID is required for super admin"))
    ensures CreateOutcome(tenants, farms, user, req).Success? ==>
      && CreateOutcome(tenants, farms, user, req).value.tenantId == TenantOf(user, req).value
      && IsId(tenants, CreateOutcome(tenants, farms, user, req).value.tenantId)
      && (user.role.TenantAdmin? ==> Some(CreateOutcome(tenants, farms, user, req).value.tenantId) == user.tenantId)
      && (user.role.SuperAdmin? ==> Some(CreateOutcome(tenants, farms, user, req).value.tenantId) == req.tenantId)
  {
  }

  /** An accepted create keeps farm codes unique within each tenant. */
  lemma CreateKeepsCodesUnique(tenants: seq<Tenant>, farms: seq<Farm>, user: User, req: FarmCreate)
    requires CodesUnique(farms)
    requires CreateOutcome(tenants, farms, user, req).Success?
    ensures CodesUnique(farms + [CreateOutcome(tenants, farms, user, req).value])
  {
    var f := CreateOutcome(tenants, farms, user, req).value;
    var fs := farms + [f];
    forall k1, k2 | 0 <= k1 < k2 < |fs| && !fs[k1].deleted && !fs[k2].deleted && fs[k1].tenantId == fs[k2].tenantId
      ensures fs[k1].farmCode != fs[k2].farmCode
    {
      if k2 == |farms| {
        assert fs[k1] == farms[k1] && fs[k2] == f;
      }
    }
  }

  /** The row after the setattr loop over the supplied fields. */
  function Patched(f: Farm, u: FarmUpdate): Farm {
    f.(name := u.name.GetOr(f.name),
       farmCode := u.farmCode.GetOr(f.farmCode),
       description := if u.description.Some? then u.description else f.description,
       location := if u.location.Some? then u.location else f.location,
       farmOwnerName := u.farmOwnerName.GetOr(f.farmOwnerName))
  }

  /**
   * update_farm: 404 unless the farm is live; a supplied code that is
   * non-empty and differs from the stored one must be free among the other
   * live farms of the tenant; then the supplied fields are set.
   */
  function UpdateOutcome(farms: seq<Farm>, farmId: int, u: FarmUpdate): Result<Farm, Failure> {
    if !IsLiveFarm(farms, farmId) then Failure(NotFound("Farm not found"))
    else
      var f := Row(farms, farmId);
      if u.farmCode.Some? && u.farmCode.value != "" && u.farmCode.value != f.farmCode
         && CodeTaken(farms, f.tenantId, u.farmCode.value, farmId)
      then Failure(BadRequest(DuplicateCode))
      else Success(Patched(f, u))
  }

  method UpdateFarm(db: Db, farmId: int, u: FarmUpdate) returns (r: Result<Farm, Failure>)
    modifies db`farms
    ensures r == UpdateOutcome(old(db.farms), farmId, u)
    ensures r.Failure? ==> db.farms == old(db.farms)
    ensures r.Success? ==> db.farms == old(db.farms)[farmId - 1 := r.value]
  {
    if !IsLiveFarm(db.farms, farmId) {
      return Failure(NotFound("Farm not found"));
    }
    var f := Row(db.farms, farmId);
    if u.farmCode.Some? && u.farmCode.value != "" && u.farmCode.value != f.farmCode {
      if CodeTaken(db.farms, f.tenantId, u.farmCode.value, farmId) {
        return Failure(BadRequest(DuplicateCode));
      }
    }
    var updated := Patched(f, u);
    db.farms := db.farms[farmId - 1 := updated];
    r := Success(updated);
  }

  /** An update sets exactly the supplied fields; the tenant and the deleted flag never change. */
  lemma UpdateChangesOnlySupplied(farms: seq<Farm>, farmId: int, u: FarmUpdate)
    requires UpdateOutcome(farms, farmId, u).Success?
    ensures var f := Row(farms, farmId);
      var g := UpdateOutcome(farms, farmId, u).value;
      && g.tenantId == f.tenantId && g.deleted == f.deleted == false
      && g.name == u.name.GetOr(f.name)
      && g.farmCode == u.farmCode.GetOr(f.farmCode)
      && g.description == (if u.description.Some? then u.description else f.description)
      && g.location == (if u.location.Some? then u.location else f.location)
      && g.farmOwnerName == u.farmOwnerName.GetOr(f.farmOwnerName)
  {
  }

  /** An accepted update that does not blank the code keeps farm codes unique within each tenant. */
  lemma UpdateKeepsCodesUnique(farms: seq<Farm>, farmId: int, u: FarmUpdate)
    requires CodesUnique(farms)
    requires UpdateOutcome(farms, farmId, u).Success?
    requires u.farmCode != Some("")
    ensures CodesUnique(farms[farmId - 1 := UpdateOutcome(farms, farmId, u).value])
  {
    var g := UpdateOutcome(farms, farmId, u).value;
    var fs := farms[farmId - 1 := g];
    forall k1, k2 | 0 <= k1 < k2 < |fs| && !fs[k1].deleted && !fs[k2].deleted && fs[k1].tenantId == fs[k2].tenantId
      ensures fs[k1].farmCode != fs[k2].farmCode
    {
      if k1 == farmId - 1 {
        assert fs[k2] == farms[k2];
        if g.farmCode != farms[k1].farmCode {
          assert !CodeTaken(farms, g.tenantId, g.farmCode, farmId);
        }
      } else if k2 == farmId - 1 {
        assert fs[k1] == farms[k1];
        if g.farmCode != farms[k2].farmCode {
          assert !CodeTaken(farms, g.tenantId, g.farmCode, farmId);
        }
      }
    }
  }

  /** The ids of the live sections of the farm, in id order. */
  function FarmSectionIds(sections: seq<Section>, farmId: int): (ids: seq<int>)
    ensures forall k :: 0 <= k < |ids| ==> IsId(sections, ids[k])
    ensures Elems(ids) == set k | 0 <= k < |sections| && !sections[k].isDeleted && sections[k].farmId == farmId :: k + 1
  {
    var ids := IdsWhere(|sections|, id => 1 <= id <= |sections| && !sections[id - 1].isDeleted
                                         && sections[id - 1].farmId == farmId);
    assert forall k :: 0 <= k < |ids| ==> ids[k] in ids;
    ghost var want := set k | 0 <= k < |sections| && !sections[k].isDeleted && sections[k].farmId == farmId :: k + 1;
    forall id | id in want ensures id in Elems(ids) {
      assert id in ids;
      var k :| 0 <= k < |ids| && ids[k] == id;
    }
    ids
  }

  /** Every section whose id is in sel is deleted; nothing else changes. */
  function MarkSections(sections: seq<Section>, sel: set<int>): (r: seq<Section>)
    ensures |r| == |sections|
  {
    seq(|sections|, k requires 0 <= k < |sections| =>
      if k + 1 in sel then sections[k].(isDeleted := true) else sections[k])
  }

  /** A live mapping attached to the farm itself or to one of the given sections. */
  predicate Reached(m: Mapping, farmId: int, secs: set<int>) {
    m.farmId == Some(farmId) || (m.sectionId.Some? && m.sectionId.value in secs)
  }

  /** The mappings a farm delete reaches, given the ids of the farm's live sections. */
  function ReachedIds(mappings: seq<Mapping>, farmId: int, secs: set<int>): set<int> {
    set k | 0 <= k < |mappings| && !mappings[k].isDeleted && Reached(mappings[k], farmId, secs) :: k + 1
  }

  /** The loop of delete_farm over the farm's live sections, marking each deleted. */
  method MarkSectionsDeleted(db: Db, ids: seq<int>)
    requires forall k :: 0 <= k < |ids| ==> IsId(db.sections, ids[k])
    modifies db`sections
    ensures db.sections == MarkSections(old(db.sections), Elems(ids))
  {
    var i := 0;
    while i < |ids|
      invariant 0 <= i <= |ids|
      invariant db.sections == MarkSections(old(db.sections), Elems(ids[..i]))
    {
      var id := ids[i];
      assert Elems(ids[..i + 1]) == Elems(ids[..i]) + {id} by {
        assert ids[..i + 1] == ids[..i] + [id];
        ElemsAppend(ids[..i], [id]);
        assert [id][0] == id;
      }
      db.sections := db.sections[id - 1 := db.sections[id - 1].(isDeleted := true)];
      assert forall k :: 0 <= k < |db.sections| ==>
        db.sections[k] == MarkSections(old(db.sections), Elems(ids[..i + 1]))[k];
      i := i + 1;
    }
    assert ids[..i] == ids;
  }

  /**
   * The list of mappings delete_farm walks: the live mappings of the farm,
   * then, when the farm had live sections, the live mappings of those
   * sections (a mapping may appear twice).
   */
  function FarmMappingIds(mappings: seq<Mapping>, farmId: int, sections: seq<int>): (ids: seq<int>)
    ensures forall k :: 0 <= k < |ids| ==> IsId(mappings, ids[k])
    ensures Elems(ids) == ReachedIds(mappings, farmId, Elems(sections))
  {
    var secs := Elems(sections);
    var ofFarm := LiveMappingIds(mappings, (m: Mapping) => m.farmId == Some(farmId));
    if |sections| > 0 then
      var ofSections := LiveMappingIds(mappings, (m: Mapping) => m.sectionId.Some? && m.sectionId.value in secs);
      ElemsAppend(ofFarm, ofSections);
      ofFarm + ofSections
    else
      assert secs == {};
      ofFarm
  }

  /**
   * delete_farm: 404 unless the farm is live; otherwise the farm, its live
   * sections, the live mappings of the farm and of those sections, and each
   * of their live schedules are marked deleted.
   */
  method DeleteFarm(db: Db, farmId: int) returns (r: Result<Farm, Failure>)
    modifies db`farms, db`sections, db`mappings, db`schedules
    ensures r.Failure? <==> !IsLiveFarm(old(db.farms), farmId)
    ensures r.Failure? ==> && r.error == NotFound("Farm not found") && db.farms == old(db.farms)
                           && db.sections == old(db.sections) && db.mappings == old(db.mappings)
                           && db.schedules == old(db.schedules)
    ensures r.Success? ==> var secs := Elems(FarmSectionIds(old(db.sections), farmId));
                           var sel := ReachedIds(old(db.mappings), farmId, secs);
                           && r.value == Row(old(db.farms), farmId).(deleted := true)
                           && db.farms == old(db.farms)[farmId - 1 := r.value]
                           && db.sections == MarkSections(old(db.sections), secs)
                           && db.mappings == MarkMappings(old(db.mappings), sel)
                           && db.schedules == MarkSchedulesOf(old(db.schedules), sel)
  {
    if !IsLiveFarm(db.farms, farmId) {
      return Failure(NotFound("Farm not found"));
    }
    var deleted := Row(db.farms, farmId).(deleted := true);
    db.farms := db.farms[farmId - 1 := deleted];
    var sections := FarmSectionIds(db.sections, farmId);
    MarkSectionsDeleted(db, sections);
    var peripherals := FarmMappingIds(db.mappings, farmId, sections);
    Cascade(db, peripherals);
    r := Success(deleted);
  }

  /**
   * Given that every live schedule belonged to a live mapping, no schedule is
   * live after a farm delete whose mapping belongs to the farm or to one of
   * its previously live sections.
   */
  lemma DeleteFarmLeavesNoLiveSchedule(mappings: seq<Mapping>, schedules: seq<Schedule>, farmId: int, secs: set<int>)
    requires LiveSchedulesHaveLiveMappings(mappings, schedules)
    ensures var after := MarkSchedulesOf(schedules, ReachedIds(mappings, farmId, secs));
      forall j :: 0 <= j < |after| && !after[j].isDeleted ==>
        IsId(mappings, after[j].mappingId) && !Reached(Row(mappings, after[j].mappingId), farmId, secs)
  {
    var sel := ReachedIds(mappings, farmId, secs);
    var after := MarkSchedulesOf(schedules, sel);
    forall j | 0 <= j < |after| && !after[j].isDeleted
      ensures IsId(mappings, after[j].mappingId) && !Reached(Row(mappings, after[j].mappingId), farmId, secs)
    {
      assert after[j] == schedules[j] && schedules[j].mappingId !in sel;
      var k := schedules[j].mappingId - 1;
      assert !mappings[k].isDeleted;
      assert Reached(mappings[k], farmId, secs) ==> k + 1 in sel;
    }
  }

  /** A farm delete marks exactly the farm's live sections; other farms' sections stay as they were. */
  lemma DeleteFarmSectionReach(sections: seq<Section>, farmId: int)
    ensures var after := MarkSections(sections, Elems(FarmSectionIds(sections, farmId)));
      && (forall k :: 0 <= k < |sections| && sections[k].farmId != farmId ==> after[k] == sections[k])
      && (forall k :: 0 <= k < |sections| && sections[k].farmId == farmId ==> after[k].isDeleted)
      && (forall k :: 0 <= k < |sections| ==> after[k].(isDeleted := sections[k].isDeleted) == sections[k])
  {
  }
}
