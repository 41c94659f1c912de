/**
 * The schedule endpoints of backend/app/api/schedule.py: create, update and
 * soft delete, with the exclusive-type conflict check of module Conflict.
 * Both datetime.now() calls of one request are the single instant `now`.
 */
module ScheduleApi {
  import opened Wrappers
  import opened Records
  import opened Occurrences
  import opened Conflict
  import opened Store
  import opened SoftDelete

  const OverlapDetail := "Overlapping schedule not allowed for any exclusive peripheral in this farm."

  /** A live mapping with this id. */
  predicate IsLiveMapping(mappings: seq<Mapping>, id: int) {
    IsId(mappings, id) && !Row(mappings, id).isDeleted
  }

  /** How a verdict of the check ends the request: a 400 on overlap, a server error on a rule croniter rejects. */
  function VerdictFailure(v: Verdict): (f: Failure)
    requires !v.Clear?
    ensures f.BadRequest? <==> v.Overlap?
  {
    if v.Overlap? then BadRequest(OverlapDetail) else ServerError("malformed cron expression: " + v.rule)
  }

  /**
   * create_schedule with the farm resolved as update_schedule does: the
   * schedule to insert, or the error the request ends with.
   */
  function CreateOutcome(types: seq<PeripheralType>, sections: seq<Section>, mappings: seq<Mapping>, schedules: seq<Schedule>,
                         mappingId: int, rule: string, duration: int, now: int, expand: Expander): Result<Schedule, Failure>
  {
    if !IsLiveMapping(mappings, mappingId) then Failure(NotFound("Peripheral mapping not found"))
    else
      var m := Row(mappings, mappingId);
      var inserted := Schedule(mappingId, rule, Some(duration), false);
      if !IsExclusiveType(types, m.typeId) then Success(inserted)
      else
        var v := ExclusiveCheck(types, sections, mappings, schedules, m, rule, Some(duration), None, now, expand);
        if v.Clear? then Success(inserted) else Failure(VerdictFailure(v))
  }

  /**
   * create_schedule as written: `Section` is bound only by the import inside
   * the section branch, so for a mapping with a farm_id the query of the
   * farm's sections raises before anything is compared.
   */
  function CreateOutcomeAsWritten(types: seq<PeripheralType>, sections: seq<Section>, mappings: seq<Mapping>, schedules: seq<Schedule>,
                                  mappingId: int, rule: string, duration: int, now: int, expand: Expander): Result<Schedule, Failure>
  {
    if IsLiveMapping(mappings, mappingId) && IsExclusiveType(types, Row(mappings, mappingId).typeId)
       && Row(mappings, mappingId).farmId.Some?
    then Failure(ServerError("local variable 'Section' referenced before assignment"))
    else CreateOutcome(types, sections, mappings, schedules, mappingId, rule, duration, now, expand)
  }

  method CreateSchedule(db: Db, mappingId: int, rule: string, duration: int, now: int, expand: Expander)
    returns (r: Result<int, Failure>)
    modifies db`schedules
    ensures var outcome := CreateOutcome(db.types, db.sections, db.mappings, old(db.schedules), mappingId, rule, duration, now, expand);
      && (r.Failure? <==> outcome.Failure?)
      && (r.Failure? ==> r.error == outcome.error && db.schedules == old(db.schedules))
      && (r.Success? ==> r.value == NextId(old(db.schedules)) && db.schedules == old(db.schedules) + [outcome.value])
  {
    if !IsLiveMapping(db.mappings, mappingId) {
      return Failure(NotFound("Peripheral mapping not found"));
    }
    var m := Row(db.mappings, mappingId);
    if IsExclusiveType(db.types, m.typeId) {
      var v := CheckExclusive(db.types, db.sections, db.mappings, db.schedules, m, rule, Some(duration), None, now, expand);
      if !v.Clear? {
        return Failure(VerdictFailure(v));
      }
    }
    r := Success(NextId(db.schedules));
    db.schedules := db.schedules + [Schedule(mappingId, rule, Some(duration), false)];
  }

  /** The values an update leaves on the schedule: each supplied field replaces the stored one. */
  function Patched(s: Schedule, rule: Option<string>, duration: Option<int>): Schedule {
    s.(cron := rule.GetOr(s.cron), durationMinutes := if duration.Some? then duration else s.durationMinutes)
  }

  /**
   * update_schedule: the updated schedule, or the error. The mapping is looked
   * up whether deleted or not; the check uses the supplied rule and duration,
   * falling back to the stored ones, and leaves the schedule itself out.
   */
  function UpdateOutcome(types: seq<PeripheralType>, sections: seq<Section>, mappings: seq<Mapping>, schedules: seq<Schedule>,
                         scheduleId: int, rule: Option<string>, duration: Option<int>, now: int, expand: Expander)
    : Result<Schedule, Failure>
  {
    if !IsId(schedules, scheduleId) || Row(schedules, scheduleId).isDeleted then Failure(NotFound("Schedule not found"))
    else
      var s := Row(schedules, scheduleId);
      var updated := Patched(s, rule, duration);
      if !(IsId(mappings, s.mappingId) && IsExclusiveType(types, Row(mappings, s.mappingId).typeId)) then Success(updated)
      else
        var v := ExclusiveCheck(types, sections, mappings, schedules, Row(mappings, s.mappingId),
                                updated.cron, updated.durationMinutes, Some(scheduleId), now, expand);
        if v.Clear? then Success(updated) else Failure(VerdictFailure(v))
  }

  method UpdateSchedule(db: Db, scheduleId: int, rule: Option<string>, duration: Option<int>, now: int, expand: Expander)
    returns (r: Result<Schedule, Failure>)
    modifies db`schedules
    ensures r == UpdateOutcome(db.types, db.sections, db.mappings, old(db.schedules), scheduleId, rule, duration, now, expand)
    ensures r.Failure? ==> db.schedules == old(db.schedules)
    ensures r.Success? ==> db.schedules == old(db.schedules)[scheduleId - 1 := r.value]
  {
    if !IsId(db.schedules, scheduleId) || Row(db.schedules, scheduleId).isDeleted {
      return Failure(NotFound("Schedule not found"));
    }
    var s := Row(db.schedules, scheduleId);
    var updated := Patched(s, rule, duration);
    if IsId(db.mappings, s.mappingId) && IsExclusiveType(db.types, Row(db.mappings, s.mappingId).typeId) {
      var v := CheckExclusive(db.types, db.sections, db.mappings, db.schedules, Row(db.mappings, s.mappingId),
                              updated.cron, updated.durationMinutes, Some(scheduleId), now, expand);
      if !v.Clear? {
        return Failure(VerdictFailure(v));
      }
    }
    db.schedules := db.schedules[scheduleId - 1 := updated];
    r := Success(updated);
  }

  /** delete_schedule: 404 unless the schedule is live; otherwise only its is_deleted flag is set. */
  method DeleteSchedule(db: Db, scheduleId: int) returns (r: Result<Schedule, Failure>)
    modifies db`schedules
    ensures r.Failure? <==> !IsId(old(db.schedules), scheduleId) || Row(old(db.schedules), scheduleId).isDeleted
    ensures r.Failure? ==> r.error == NotFound("Schedule not found") && db.schedules == old(db.schedules)
    ensures r.Success? ==> r.value == Row(old(db.schedules), scheduleId).(isDeleted := true)
                           && db.schedules == old(db.schedules)[scheduleId - 1 := r.value]
  {
    if !IsId(db.schedules, scheduleId) || Row(db.schedules, scheduleId).isDeleted {
      return Failure(NotFound("Schedule not found"));
    }
    var deleted := Row(db.schedules, scheduleId).(isDeleted := true);
    db.schedules := db.schedules[scheduleId - 1 := deleted];
    r := Success(deleted);
  }

  /** A mapping whose type is missing or not exclusive gets the schedule with no check at all. */
  lemma CreateNonExclusiveInserts(types: seq<PeripheralType>, sections: seq<Section>, mappings: seq<Mapping>, schedules: seq<Schedule>,
                                  mappingId: int, rule: string, duration: int, now: int, expand: Expander)
    requires IsLiveMapping(mappings, mappingId) && !IsExclusiveType(types, Row(mappings, mappingId).typeId)
    ensures CreateOutcome(types, sections, mappings, schedules, mappingId, rule, duration, now, expand)
            == Success(Schedule(mappingId, rule, Some(duration), false))
  {
  }

  /**
   * For an exclusive mapping whose rules croniter accepts, create rejects
   * with a 400 exactly when some peer of known duration overlaps the
   * candidate in some pair of their 7 next occurrences.
   */
  lemma CreateRejectsIffOverlap(types: seq<PeripheralType>, sections: seq<Section>, mappings: seq<Mapping>, schedules: seq<Schedule>,
                                mappingId: int, rule: string, duration: int, now: int, expand: Expander)
    requires IsLiveMapping(mappings, mappingId) && IsExclusiveType(types, Row(mappings, mappingId).typeId)
    requires var peers := Peers(types, sections, mappings, schedules, Row(mappings, mappingId), None);
      AllIds(schedules, peers) && RulesWellFormed(expand, now, rule, schedules, peers)
    ensures var peers := Peers(types, sections, mappings, schedules, Row(mappings, mappingId), None);
      var outcome := CreateOutcome(types, sections, mappings, schedules, mappingId, rule, duration, now, expand);
      && (outcome.Failure? <==>
           exists k :: 0 <= k < |peers| && PeerFails(expand, now, expand(rule, now, Horizon).value, Some(duration), Row(schedules, peers[k])))
      && (outcome.Failure? ==> outcome.error == BadRequest(OverlapDetail))
  {
    CheckRejectsIffOverlap(types, sections, mappings, schedules, Row(mappings, mappingId), rule, Some(duration), None, now, expand);
  }

  /**
   * A create that succeeds on an exclusive mapping leaves no overlap within
   * the horizon between the new schedule and any live exclusive schedule of
   * the farm (those of unknown duration aside).
   */
  lemma CreateAcceptedHasNoOverlap(types: seq<PeripheralType>, sections: seq<Section>, mappings: seq<Mapping>, schedules: seq<Schedule>,
                                   mappingId: int, rule: string, duration: int, now: int, expand: Expander, peer: int)
    requires IsLiveMapping(mappings, mappingId) && IsExclusiveType(types, Row(mappings, mappingId).typeId)
    requires CreateOutcome(types, sections, mappings, schedules, mappingId, rule, duration, now, expand).Success?
    requires peer in Peers(types, sections, mappings, schedules, Row(mappings, mappingId), None)
    requires Row(schedules, peer).durationMinutes.Some?
    ensures expand(rule, now, Horizon).Some? && expand(Row(schedules, peer).cron, now, Horizon).Some?
    ensures !AnyPairOverlaps(expand(rule, now, Horizon).value, duration,
                             expand(Row(schedules, peer).cron, now, Horizon).value, Row(schedules, peer).durationMinutes.value)
  {
    var m := Row(mappings, mappingId);
    var peers := Peers(types, sections, mappings, schedules, m, None);
    PeersAreIds(types, sections, mappings, schedules, m, None);
    ScanClearIff(expand, now, expand(rule, now, Horizon).value, Some(duration), schedules, peers);
    var k :| 0 <= k < |peers| && peers[k] == peer;
  }

  /**
   * A second schedule with the same rule as a live exclusive schedule of the
   * farm is refused when both run for a positive time: croniter gives both
   * the same 7 instants.
   */
  lemma SameRuleIsRejected(types: seq<PeripheralType>, sections: seq<Section>, mappings: seq<Mapping>, schedules: seq<Schedule>,
                           mappingId: int, duration: int, now: int, expand: Expander, peer: int)
    requires WellBehaved(expand)
    requires IsLiveMapping(mappings, mappingId) && IsExclusiveType(types, Row(mappings, mappingId).typeId)
    requires peer in Peers(types, sections, mappings, schedules, Row(mappings, mappingId), None)
    requires expand(Row(schedules, peer).cron, now, Horizon).Some?
    requires duration > 0 && Row(schedules, peer).durationMinutes.Some? && Row(schedules, peer).durationMinutes.value > 0
    ensures CreateOutcome(types, sections, mappings, schedules, mappingId, Row(schedules, peer).cron, duration, now, expand).Failure?
  {
    var rule := Row(schedules, peer).cron;
    if CreateOutcome(types, sections, mappings, schedules, mappingId, rule, duration, now, expand).Success? {
      CreateAcceptedHasNoOverlap(types, sections, mappings, schedules, mappingId, rule, duration, now, expand, peer);
      var occ := expand(rule, now, Horizon).value;
      assert |occ| == Horizon;
      SharedStartOverlaps(occ, duration, occ, Row(schedules, peer).durationMinutes.value, 0, 0);
      assert false;
    }
  }

  /**
   * The defect as written: every create on a live exclusive mapping that
   * carries a farm_id ends in a server error, whatever the rule and the
   * other schedules, while the corrected create accepts it whenever the rules
   * are well formed and nothing overlaps.
   */
  lemma AsWrittenFarmScopedCreateFails(types: seq<PeripheralType>, sections: seq<Section>, mappings: seq<Mapping>, schedules: seq<Schedule>,
                                       mappingId: int, rule: string, duration: int, now: int, expand: Expander)
    requires IsLiveMapping(mappings, mappingId) && IsExclusiveType(types, Row(mappings, mappingId).typeId)
    requires Row(mappings, mappingId).farmId.Some?
    ensures CreateOutcomeAsWritten(types, sections, mappings, schedules, mappingId, rule, duration, now, expand).Failure?
    ensures CreateOutcomeAsWritten(types, sections, mappings, schedules, mappingId, rule, duration, now, expand).error.ServerError?
  {
  }

  /** The corrected create on a farm-scoped exclusive mapping with no conflicting peer is accepted. */
  lemma CorrectedFarmScopedCreateAccepts(types: seq<PeripheralType>, sections: seq<Section>, mappings: seq<Mapping>, schedules: seq<Schedule>,
                                         mappingId: int, rule: string, duration: int, now: int, expand: Expander)
    requires IsLiveMapping(mappings, mappingId) && IsExclusiveType(types, Row(mappings, mappingId).typeId)
    requires Row(mappings, mappingId).farmId.Some?
    requires var peers := Peers(types, sections, mappings, schedules, Row(mappings, mappingId), None);
      AllIds(schedules, peers) && RulesWellFormed(expand, now, rule, schedules, peers)
      && forall k :: 0 <= k < |peers| ==> !PeerFails(expand, now, expand(rule, now, Horizon).value, Some(duration), Row(schedules, peers[k]))
    ensures CreateOutcome(types, sections, mappings, schedules, mappingId, rule, duration, now, expand)
            == Success(Schedule(mappingId, rule, Some(duration), false))
  {
    CreateRejectsIffOverlap(types, sections, mappings, schedules, mappingId, rule, duration, now, expand);
  }

  /** Outside the farm-scoped exclusive case, the written and the corrected create agree. */
  lemma AsWrittenAgreesElsewhere(types: seq<PeripheralType>, sections: seq<Section>, mappings: seq<Mapping>, schedules: seq<Schedule>,
                                 mappingId: int, rule: string, duration: int, now: int, expand: Expander)
    requires !IsLiveMapping(mappings, mappingId) || !IsExclusiveType(types, Row(mappings, mappingId).typeId)
             || Row(mappings, mappingId).farmId.None?
    ensures CreateOutcomeAsWritten(types, sections, mappings, schedules, mappingId, rule, duration, now, expand)
            == CreateOutcome(types, sections, mappings, schedules, mappingId, rule, duration, now, expand)
  {
  }

  /** An update never compares the schedule with itself. */
  lemma UpdateExcludesItself(types: seq<PeripheralType>, sections: seq<Section>, mappings: seq<Mapping>, schedules: seq<Schedule>,
                             m: Mapping, scheduleId: int)
    ensures scheduleId !in Peers(types, sections, mappings, schedules, m, Some(scheduleId))
  {
    PeersExactly(types, sections, mappings, schedules, m, Some(scheduleId), scheduleId);
  }

  /**
   * A successful update keeps the schedule's mapping and live flag and takes
   * each of rule and duration from the request when supplied, from the stored
   * schedule otherwise.
   */
  lemma UpdateChangesOnlySupplied(types: seq<PeripheralType>, sections: seq<Section>, mappings: seq<Mapping>, schedules: seq<Schedule>,
                                  scheduleId: int, rule: Option<string>, duration: Option<int>, now: int, expand: Expander)
    requires UpdateOutcome(types, sections, mappings, schedules, scheduleId, rule, duration, now, expand).Success?
    ensures var s := Row(schedules, scheduleId);
      var u := UpdateOutcome(types, sections, mappings, schedules, scheduleId, rule, duration, now, expand).value;
      && !s.isDeleted && u.mappingId == s.mappingId && !u.isDeleted
      && (rule.Some? ==> u.cron == rule.value) && (rule.None? ==> u.cron == s.cron)
      && (duration.Some? ==> u.durationMinutes == duration) && (duration.None? ==> u.durationMinutes == s.durationMinutes)
  {
  }

  /**
   * Creating, updating and deleting schedules keep every live schedule
   * attached to a live mapping: create only attaches to a live mapping, and
   * update never changes the mapping or revives a schedule.
   */
  lemma ScheduleWritesKeepLiveLinks(types: seq<PeripheralType>, sections: seq<Section>, mappings: seq<Mapping>,
                                    schedules: seq<Schedule>, mappingId: int, scheduleId: int, rule: string, duration: int,
                                    newRule: Option<string>, newDuration: Option<int>, now: int, expand: Expander)
    requires LiveSchedulesHaveLiveMappings(mappings, schedules)
    ensures var c := CreateOutcome(types, sections, mappings, schedules, mappingId, rule, duration, now, expand);
      c.Success? ==> LiveSchedulesHaveLiveMappings(mappings, schedules + [c.value])
    ensures var u := UpdateOutcome(types, sections, mappings, schedules, scheduleId, newRule, newDuration, now, expand);
      u.Success? ==> LiveSchedulesHaveLiveMappings(mappings, schedules[scheduleId - 1 := u.value])
    ensures IsId(schedules, scheduleId) ==>
      LiveSchedulesHaveLiveMappings(mappings, schedules[scheduleId - 1 := Row(schedules, scheduleId).(isDeleted := true)])
  {
    var c := CreateOutcome(types, sections, mappings, schedules, mappingId, rule, duration, now, expand);
    if c.Success? {
      var ss := schedules + [c.value];
      forall j | 0 <= j < |ss| && !ss[j].isDeleted
        ensures IsId(mappings, ss[j].mappingId) && !Row(mappings, ss[j].mappingId).isDeleted
      {
        if j < |schedules| {
          assert ss[j] == schedules[j];
        }
      }
    }
  }
}
