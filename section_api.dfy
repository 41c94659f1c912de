/**
 * The section endpoints of backend/app/api/section.py: create with the
 * per-farm section_code uniqueness rule, get, update of the supplied fields,
 * and the soft delete that cascades to the section's mappings and their
 * schedules. Role and tenant checks are not modelled.
 */
module SectionApi {
  import opened Wrappers
  import opened Records
  import opened Store
  import opened SoftDelete

  const DuplicateCode := "Section code must be unique within the farm"

  /** The fields of a create request (area is not modelled). */
  datatype SectionCreate = SectionCreate(
    farmId: int,
    name: string,
    sectionCode: string,
    description: Option<string>,
    cropType: Option<string>,
    sectionInchargeName: Option<string>,
    notes: Option<string>)

  /** The fields an update request supplies; None is a field left unset. */
  datatype SectionUpdate = SectionUpdate(
    name: Option<string>,
    sectionCode: Option<string>,
    description: Option<string>,
    cropType: Option<string>,
    sectionInchargeName: Option<string>,
    notes: Option<string>)

  predicate IsLiveFarm(farms: seq<Farm>, id: int) {
    IsId(farms, id) && !Row(farms, id).deleted
  }

  predicate IsLiveSection(sections: seq<Section>, id: int) {
    IsId(sections, id) && !Row(sections, id).isDeleted
  }

  /** A live section of the farm, other than `exclude`, already uses the code. */
  predicate CodeTaken(sections: seq<Section>, farmId: int, code: string, exclude: int) {
    exists k :: 0 <= k < |sections| && !sections[k].isDeleted && sections[k].farmId == farmId
      && sections[k].sectionCode == code && k + 1 != exclude
  }

  /** No two live sections of one farm share a section_code. */
  predicate CodesUnique(sections: seq<Section>) {
    forall k1, k2 ::
      (0 <= k1 < k2 < |sections| && !sections[k1].isDeleted && !sections[k2].isDeleted
       && sections[k1].farmId == sections[k2].farmId) ==> sections[k1].sectionCode != sections[k2].sectionCode
  }

  /** create_section: 404 unless the farm is live, 400 if the code is taken in that farm, else the new row. */
  function CreateOutcome(farms: seq<Farm>, sections: seq<Section>, req: SectionCreate): Result<Section, Failure> {
    if !IsLiveFarm(farms, req.farmId) then Failure(NotFound("Farm not found"))
    else if CodeTaken(sections, req.farmId, req.sectionCode, 0) then Failure(BadRequest(DuplicateCode))
    else Success(Section(req.farmId, req.name, req.sectionCode, req.description, req.cropType,
                         req.sectionInchargeName, req.notes, false))
  }

  method CreateSection(db: Db, req: SectionCreate) returns (r: Result<int, Failure>)
    modifies db`sections
    ensures var outcome := CreateOutcome(db.farms, old(db.sections), req);
      && (r.Failure? <==> outcome.Failure?)
      && (r.Failure? ==> r.error == outcome.error && db.sections == old(db.sections))
      && (r.Success? ==> r.value == NextId(old(db.sections)) && db.sections == old(db.sections) + [outcome.value])
  {
    if !IsLiveFarm(db.farms, req.farmId) {
      return Failure(NotFound("Farm not found"));
    }
    if CodeTaken(db.sections, req.farmId, req.sectionCode, 0) {
      return Failure(BadRequest(DuplicateCode));
    }
    r := Success(NextId(db.sections));
    db.sections := db.sections + [Section(req.farmId, req.name, req.sectionCode, req.description, req.cropType,
                                          req.sectionInchargeName, req.notes, false)];
  }

  /** An accepted create keeps section codes unique within each farm, and inserts a live section of a live farm. */
  lemma CreateKeepsCodesUnique(farms: seq<Farm>, sections: seq<Section>, req: SectionCreate)
    requires CodesUnique(sections)
    requires CreateOutcome(farms, sections, req).Success?
    ensures CodesUnique(sections + [CreateOutcome(farms, sections, req).value])
    ensures IsLiveFarm(farms, CreateOutcome(farms, sections, req).value.farmId)
  {
    var s := CreateOutcome(farms, sections, req).value;
    var ss := sections + [s];
    forall k1, k2 | 0 <= k1 < k2 < |ss| && !ss[k1].isDeleted && !ss[k2].isDeleted && ss[k1].farmId == ss[k2].farmId
      ensures ss[k1].sectionCode != ss[k2].sectionCode
    {
      if k2 == |sections| {
        assert ss[k1] == sections[k1] && ss[k2] == s;
      }
    }
  }

  /** get_section: the live section, or 404. */
  function GetSection(sections: seq<Section>, sectionId: int): (r: Result<Section, Failure>)
    ensures r.Success? <==> IsLiveSection(sections, sectionId)
    ensures r.Success? ==> r.value == Row(sections, sectionId) && !r.value.isDeleted
    ensures r.Failure? ==> r.error == NotFound("Section not found")
  {
    if IsLiveSection(sections, sectionId) then Success(Row(sections, sectionId)) else Failure(NotFound("Section not found"))
  }

  /** The row after the setattr loop over the supplied fields. */
  function Patched(s: Section, u: SectionUpdate): Section {
    s.(name := u.name.GetOr(s.name),
       sectionCode := u.sectionCode.GetOr(s.sectionCode),
       description := if u.description.Some? then u.description else s.description,
       cropType := if u.cropType.Some? then u.cropType else s.cropType,
       sectionInchargeName := if u.sectionInchargeName.Some? then u.sectionInchargeName else s.sectionInchargeName,
       notes := if u.notes.Some? then u.notes else s.notes)
  }

  /**
   * update_section: 404 unless the section is live; a supplied code that is
   * non-empty and differs from the stored one must not be taken by another
   * live section of the farm; then the supplied fields are set.
   */
  function UpdateOutcome(sections: seq<Section>, sectionId: int, u: SectionUpdate): Result<Section, Failure> {
    if !IsLiveSection(sections, sectionId) then Failure(NotFound("Section not found"))
    else
      var s := Row(sections, sectionId);
      if u.sectionCode.Some? && u.sectionCode.value != "" && u.sectionCode.value != s.sectionCode
         && CodeTaken(sections, s.farmId, u.sectionCode.value, sectionId)
      then Failure(BadRequest(DuplicateCode))
      else Success(Patched(s, u))
  }

  method UpdateSection(db: Db, sectionId: int, u: SectionUpdate) returns (r: Result<Section, Failure>)
    modifies db`sections
    ensures r == UpdateOutcome(old(db.sections), sectionId, u)
    ensures r.Failure? ==> db.sections == old(db.sections)
    ensures r.Success? ==> db.sections == old(db.sections)[sectionId - 1 := r.value]
  {
    if !IsLiveSection(db.sections, sectionId) {
      return Failure(NotFound("Section not found"));
    }
    var s := Row(db.sections, sectionId);
    if u.sectionCode.Some? && u.sectionCode.value != "" && u.sectionCode.value != s.sectionCode {
      if CodeTaken(db.sections, s.farmId, u.sectionCode.value, sectionId) {
        return Failure(BadRequest(DuplicateCode));
      }
    }
    var updated := Patched(s, u);
    db.sections := db.sections[sectionId - 1 := updated];
    r := Success(updated);
  }

  /** An update changes exactly the supplied fields: the farm and the deleted flag never change. */
  lemma UpdateChangesOnlySupplied(sections: seq<Section>, sectionId: int, u: SectionUpdate)
    requires UpdateOutcome(sections, sectionId, u).Success?
    ensures var s := Row(sections, sectionId);
      var t := UpdateOutcome(sections, sectionId, u).value;
      && t.farmId == s.farmId && t.isDeleted == s.isDeleted == false
      && (u.name.None? ==> t.name == s.name) && (u.name.Some? ==> t.name == u.name.value)
      && (u.sectionCode.None? ==> t.sectionCode == s.sectionCode)
      && (u.sectionCode.Some? ==> t.sectionCode == u.sectionCode.value)
      && t.description == (if u.description.Some? then u.description else s.description)
      && t.cropType == (if u.cropType.Some? then u.cropType else s.cropType)
      && t.sectionInchargeName == (if u.sectionInchargeName.Some? then u.sectionInchargeName else s.sectionInchargeName)
      && t.notes == (if u.notes.Some? then u.notes else s.notes)
  {
  }

  /** An accepted update that does not blank the code keeps section codes unique within each farm. */
  lemma UpdateKeepsCodesUnique(sections: seq<Section>, sectionId: int, u: SectionUpdate)
    requires CodesUnique(sections)
    requires UpdateOutcome(sections, sectionId, u).Success?
    requires u.sectionCode != Some("")
    ensures CodesUnique(sections[sectionId - 1 := UpdateOutcome(sections, sectionId, u).value])
  {
    var t := UpdateOutcome(sections, sectionId, u).value;
    var ss := sections[sectionId - 1 := t];
    forall k1, k2 | 0 <= k1 < k2 < |ss| && !ss[k1].isDeleted && !ss[k2].isDeleted && ss[k1].farmId == ss[k2].farmId
      ensures ss[k1].sectionCode != ss[k2].sectionCode
    {
      if k1 == sectionId - 1 {
        assert ss[k2] == sections[k2];
        if t.sectionCode != sections[k1].sectionCode {
          assert !CodeTaken(sections, t.farmId, t.sectionCode, sectionId);
        }
      } else if k2 == sectionId - 1 {
        assert ss[k1] == sections[k1];
        if t.sectionCode != sections[k2].sectionCode {
          assert !CodeTaken(sections, t.farmId, t.sectionCode, sectionId);
        }
      }
    }
  }

  /**
   * An empty section_code is falsy, so it bypasses the uniqueness check:
   * two live sections of one farm can both end with the empty code.
   */
  lemma EmptyCodeBypassesCheck()
    ensures var sections := [Section(1, "north", "", None, None, None, None, false),
                             Section(1, "south", "S", None, None, None, None, false)];
      var u := SectionUpdate(None, Some(""), None, None, None, None);
      && CodesUnique(sections)
      && UpdateOutcome(sections, 2, u).Success?
      && !CodesUnique(sections[1 := UpdateOutcome(sections, 2, u).value])
  {
    var sections := [Section(1, "north", "", None, None, None, None, false),
                     Section(1, "south", "S", None, None, None, None, false)];
    var u := SectionUpdate(None, Some(""), None, None, None, None);
    var ss := sections[1 := UpdateOutcome(sections, 2, u).value];
    assert ss[0].sectionCode == ss[1].sectionCode == "";
  }

  /** The ids of the live mappings attached to the section, in id order (the query of delete_section). */
  function SectionMappingIds(mappings: seq<Mapping>, sectionId: int): seq<int> {
    LiveMappingIds(mappings, (m: Mapping) => m.sectionId == Some(sectionId))
  }

  /**
   * delete_section: 404 unless the section is live; otherwise the section,
   * each live mapping attached to it and each of their live schedules are
   * marked deleted.
   */
  method DeleteSection(db: Db, sectionId: int) returns (r: Result<Section, Failure>)
    modifies db`sections, db`mappings, db`schedules
    ensures r.Failure? <==> !IsLiveSection(old(db.sections), sectionId)
    ensures r.Failure? ==> && r.error == NotFound("Section not found") && db.sections == old(db.sections)
                           && db.mappings == old(db.mappings) && db.schedules == old(db.schedules)
    ensures r.Success? ==> var sel := Elems(SectionMappingIds(old(db.mappings), sectionId));
                           && r.value == Row(old(db.sections), sectionId).(isDeleted := true)
                           && db.sections == old(db.sections)[sectionId - 1 := r.value]
                           && db.mappings == MarkMappings(old(db.mappings), sel)
                           && db.schedules == MarkSchedulesOf(old(db.schedules), sel)
  {
    if !IsLiveSection(db.sections, sectionId) {
      return Failure(NotFound("Section not found"));
    }
    var deleted := Row(db.sections, sectionId).(isDeleted := true);
    db.sections := db.sections[sectionId - 1 := deleted];
    var peripherals := SectionMappingIds(db.mappings, sectionId);
    Cascade(db, peripherals);
    r := Success(deleted);
  }

  /**
   * Section delete reaches exactly the live mappings of the section: farm-scoped
   * mappings, other sections' mappings and their schedules stay as they were,
   * and no schedule of a reached mapping stays live.
   */
  lemma DeleteSectionReach(mappings: seq<Mapping>, schedules: seq<Schedule>, sectionId: int)
    ensures var sel := Elems(SectionMappingIds(mappings, sectionId));
      && (forall k :: 0 <= k < |mappings| && mappings[k].sectionId != Some(sectionId) ==>
            MarkMappings(mappings, sel)[k] == mappings[k])
      && (forall k :: 0 <= k < |mappings| && !mappings[k].isDeleted && mappings[k].sectionId == Some(sectionId) ==>
            MarkMappings(mappings, sel)[k].isDeleted)
      && (forall j :: 0 <= j < |schedules| && IsId(mappings, schedules[j].mappingId)
                      && Row(mappings, schedules[j].mappingId).sectionId != Some(sectionId) ==>
            MarkSchedulesOf(schedules, sel)[j] == schedules[j])
      && (forall j :: 0 <= j < |schedules| && IsId(mappings, schedules[j].mappingId)
                      && !Row(mappings, schedules[j].mappingId).isDeleted
                      && Row(mappings, schedules[j].mappingId).sectionId == Some(sectionId) ==>
            MarkSchedulesOf(schedules, sel)[j].isDeleted)
  {
    var sel := Elems(SectionMappingIds(mappings, sectionId));
    forall j | 0 <= j < |schedules| && IsId(mappings, schedules[j].mappingId)
               && Row(mappings, schedules[j].mappingId).sectionId != Some(sectionId)
      ensures MarkSchedulesOf(schedules, sel)[j] == schedules[j]
    {
      assert schedules[j].mappingId !in sel;
    }
  }
}
