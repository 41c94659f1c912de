/**
 * The exclusive-schedule conflict check shared by create_schedule and
 * update_schedule (backend/app/api/schedule.py): find the farm of the
 * mapping, collect the live schedules of every live exclusive-type mapping
 * of that farm and of its sections, and compare 7 occurrences of the
 * candidate with 7 occurrences of each of them, all expanded from the same
 * instant `now`.
 */
module Conflict {
  import opened Wrappers
  import opened Records
  import opened Occurrences

  /** The outcome of the check: no overlap, an overlap with a schedule, or a rule croniter rejects. */
  datatype Verdict = Clear | Overlap(scheduleId: int) | MalformedRule(rule: string)

  /** A type id names an existing type whose exclusive_schedule flag is set. */
  predicate IsExclusiveType(types: seq<PeripheralType>, typeId: int) {
    IsId(types, typeId) && Row(types, typeId).exclusive
  }

  /**
   * The farm the mapping competes in: its own farm_id when set, otherwise the
   * farm of its section, which is looked up whether deleted or not.
   */
  function ResolveFarm(sections: seq<Section>, m: Mapping): (farm: Option<int>)
    ensures farm.None? <==> m.farmId.None? && (m.sectionId.None? || !IsId(sections, m.sectionId.value))
  {
    if m.farmId.Some? then m.farmId
    else if m.sectionId.Some? && IsId(sections, m.sectionId.value) then Some(Row(sections, m.sectionId.value).farmId)
    else None
  }

  /** A mapping is in the farm directly or through one of the farm's sections, deleted or not. */
  predicate InFarm(sections: seq<Section>, m: Mapping, farm: int) {
    || m.farmId == Some(farm)
    || (m.sectionId.Some? && IsId(sections, m.sectionId.value) && Row(sections, m.sectionId.value).farmId == farm)
  }

  /** The mappings the check compares against: live, of an exclusive type, in the farm. */
  predicate IsPeerMapping(types: seq<PeripheralType>, sections: seq<Section>, m: Mapping, farm: int) {
    !m.isDeleted && IsExclusiveType(types, m.typeId) && InFarm(sections, m, farm)
  }

  /** relevant_mappings: the ids of the peer mappings of the farm. */
  function PeerMappings(types: seq<PeripheralType>, sections: seq<Section>, mappings: seq<Mapping>, farm: int): seq<int> {
    IdsWhere(|mappings|, id => IsId(mappings, id) && IsPeerMapping(types, sections, Row(mappings, id), farm))
  }

  /** The live schedules of mapping mid other than `exclude` (the query at :87-90 and :167-171). */
  function LiveSchedulesOf(schedules: seq<Schedule>, mid: int, exclude: Option<int>): seq<int> {
    IdsWhere(|schedules|, id => IsId(schedules, id) && Row(schedules, id).mappingId == mid
                                && !Row(schedules, id).isDeleted && exclude != Some(id))
  }

  /** all_schedules: the live schedules of each mapping of ms in turn, as the extend loop builds them. */
  function PeerSchedules(schedules: seq<Schedule>, ms: seq<int>, exclude: Option<int>): (ids: seq<int>)
    ensures forall id :: id in ids <==>
      IsId(schedules, id) && Row(schedules, id).mappingId in ms && !Row(schedules, id).isDeleted && exclude != Some(id)
  {
    if ms == [] then []
    else PeerSchedules(schedules, ms[..|ms| - 1], exclude) + LiveSchedulesOf(schedules, ms[|ms| - 1], exclude)
  }

  /** The schedules the candidate is compared with: none when the farm cannot be resolved. */
  function Peers(types: seq<PeripheralType>, sections: seq<Section>, mappings: seq<Mapping>, schedules: seq<Schedule>,
                 m: Mapping, exclude: Option<int>): seq<int> {
    match ResolveFarm(sections, m)
    case None => []
    case Some(farm) => PeerSchedules(schedules, PeerMappings(types, sections, mappings, farm), exclude)
  }

  /** Every id in peers names a schedule. */
  predicate AllIds(schedules: seq<Schedule>, peers: seq<int>) {
    forall k :: 0 <= k < |peers| ==> IsId(schedules, peers[k])
  }

  /** A peer passes when its rule expands and, if both durations are known, no occurrence pair overlaps. */
  predicate PeerPasses(expand: Expander, now: int, cand: seq<int>, dur: Option<int>, s: Schedule) {
    && expand(s.cron, now, Horizon).Some?
    && !(dur.Some? && s.durationMinutes.Some?
         && AnyPairOverlaps(cand, dur.value, expand(s.cron, now, Horizon).value, s.durationMinutes.value))
  }

  /** The loop over all_schedules: the first peer whose rule fails to expand or that overlaps decides. */
  function Scan(expand: Expander, now: int, cand: seq<int>, dur: Option<int>, schedules: seq<Schedule>, peers: seq<int>): Verdict
    requires AllIds(schedules, peers)
  {
    if peers == [] then Clear
    else
      var s := Row(schedules, peers[0]);
      match expand(s.cron, now, Horizon)
      case None => MalformedRule(s.cron)
      case Some(occ) =>
        if dur.Some? && s.durationMinutes.Some? && AnyPairOverlaps(cand, dur.value, occ, s.durationMinutes.value)
        then Overlap(peers[0])
        else Scan(expand, now, cand, dur, schedules, peers[1..])
  }

  /**
   * The whole check for a candidate rule and duration on mapping m, with the
   * schedule `exclude` left out of the peers (update) or nothing left out (create).
   */
  function ExclusiveCheck(types: seq<PeripheralType>, sections: seq<Section>, mappings: seq<Mapping>, schedules: seq<Schedule>,
                          m: Mapping, rule: string, dur: Option<int>, exclude: Option<int>,
                          now: int, expand: Expander): Verdict
  {
    var peers := Peers(types, sections, mappings, schedules, m, exclude);
    match expand(rule, now, Horizon)
    case None => MalformedRule(rule)
    case Some(cand) => Scan(expand, now, cand, dur, schedules, peers)
  }

  lemma PeerSchedulesAreIds(schedules: seq<Schedule>, ms: seq<int>, exclude: Option<int>)
    ensures AllIds(schedules, PeerSchedules(schedules, ms, exclude))
  {
    var ids := PeerSchedules(schedules, ms, exclude);
    forall k | 0 <= k < |ids| ensures IsId(schedules, ids[k]) {
      assert ids[k] in ids;
    }
  }

  lemma PeersAreIds(types: seq<PeripheralType>, sections: seq<Section>, mappings: seq<Mapping>, schedules: seq<Schedule>,
                    m: Mapping, exclude: Option<int>)
    ensures AllIds(schedules, Peers(types, sections, mappings, schedules, m, exclude))
  {
    match ResolveFarm(sections, m)
    case None =>
    case Some(farm) => PeerSchedulesAreIds(schedules, PeerMappings(types, sections, mappings, farm), exclude);
  }

  /**
   * The peers are exactly the live schedules (other than the excluded one)
   * of live exclusive-type mappings of the resolved farm or its sections.
   */
  lemma PeersExactly(types: seq<PeripheralType>, sections: seq<Section>, mappings: seq<Mapping>, schedules: seq<Schedule>,
                     m: Mapping, exclude: Option<int>, id: int)
    ensures id in Peers(types, sections, mappings, schedules, m, exclude) <==>
      && ResolveFarm(sections, m).Some?
      && IsId(schedules, id) && !Row(schedules, id).isDeleted && exclude != Some(id)
      && IsId(mappings, Row(schedules, id).mappingId)
      && IsPeerMapping(types, sections, Row(mappings, Row(schedules, id).mappingId), ResolveFarm(sections, m).value)
  {
  }

  /** The method form of the extend loop building all_schedules from relevant_mappings. */
  method CollectPeers(schedules: seq<Schedule>, relevant: seq<int>, exclude: Option<int>) returns (all: seq<int>)
    ensures all == PeerSchedules(schedules, relevant, exclude)
  {
    all := [];
    var i := 0;
    while i < |relevant|
      invariant 0 <= i <= |relevant|
      invariant all == PeerSchedules(schedules, relevant[..i], exclude)
    {
      assert relevant[..i + 1][..i] == relevant[..i];
      all := all + LiveSchedulesOf(schedules, relevant[i], exclude);
      i := i + 1;
    }
    assert relevant[..i] == relevant;
  }

  /** The loop over all_schedules with its inner pair loop, stopping at the first overlap or bad rule. */
  method ScanPeers(expand: Expander, now: int, cand: seq<int>, dur: Option<int>, schedules: seq<Schedule>, peers: seq<int>)
    returns (v: Verdict)
    requires AllIds(schedules, peers)
    ensures v == Scan(expand, now, cand, dur, schedules, peers)
  {
    var i := 0;
    while i < |peers|
      invariant 0 <= i <= |peers|
      invariant AllIds(schedules, peers[i..])
      invariant Scan(expand, now, cand, dur, schedules, peers) == Scan(expand, now, cand, dur, schedules, peers[i..])
    {
      var s := Row(schedules, peers[i]);
      var existing := expand(s.cron, now, Horizon);
      if existing.None? {
        return MalformedRule(s.cron);
      }
      assert peers[i..][1..] == peers[i + 1..];
      if dur.Some? && s.durationMinutes.Some? {
        var overlap := PairsOverlap(cand, dur.value, existing.value, s.durationMinutes.value);
        if overlap {
          return Overlap(peers[i]);
        }
      }
      i := i + 1;
    }
    return Clear;
  }

  /** The exclusive branch of create_schedule / update_schedule up to the verdict. */
  method CheckExclusive(types: seq<PeripheralType>, sections: seq<Section>, mappings: seq<Mapping>, schedules: seq<Schedule>,
                        m: Mapping, rule: string, dur: Option<int>, exclude: Option<int>,
                        now: int, expand: Expander) returns (v: Verdict)
    ensures v == ExclusiveCheck(types, sections, mappings, schedules, m, rule, dur, exclude, now, expand)
  {
    var farm := ResolveFarm(sections, m);
    var all: seq<int> := [];
    if farm.Some? {
      var relevant := PeerMappings(types, sections, mappings, farm.value);
      all := CollectPeers(schedules, relevant, exclude);
    }
    PeersAreIds(types, sections, mappings, schedules, m, exclude);
    var newOccurrences := expand(rule, now, Horizon);
    if newOccurrences.None? {
      return MalformedRule(rule);
    }
    v := ScanPeers(expand, now, newOccurrences.value, dur, schedules, all);
  }

  /** Scan finds nothing exactly when every peer passes. */
  lemma {:induction false} ScanClearIff(expand: Expander, now: int, cand: seq<int>, dur: Option<int>,
                                         schedules: seq<Schedule>, peers: seq<int>)
    requires AllIds(schedules, peers)
    ensures Scan(expand, now, cand, dur, schedules, peers) == Clear <==>
      forall k :: 0 <= k < |peers| ==> PeerPasses(expand, now, cand, dur, Row(schedules, peers[k]))
  {
    if peers != [] {
      assert AllIds(schedules, peers[1..]);
      ScanClearIff(expand, now, cand, dur, schedules, peers[1..]);
      assert forall k :: 1 <= k < |peers| ==> peers[k] == peers[1..][k - 1];
    }
  }

  /** An overlap verdict names a peer whose occurrences overlap the candidate's. */
  lemma {:induction false} ScanOverlapSound(expand: Expander, now: int, cand: seq<int>, dur: Option<int>,
                                             schedules: seq<Schedule>, peers: seq<int>, id: int)
    requires AllIds(schedules, peers)
    requires Scan(expand, now, cand, dur, schedules, peers) == Overlap(id)
    ensures id in peers && IsId(schedules, id)
    ensures var s := Row(schedules, id);
      && expand(s.cron, now, Horizon).Some? && dur.Some? && s.durationMinutes.Some?
      && AnyPairOverlaps(cand, dur.value, expand(s.cron, now, Horizon).value, s.durationMinutes.value)
  {
    if peers[0] != id || !PeerFails(expand, now, cand, dur, Row(schedules, peers[0])) {
      assert AllIds(schedules, peers[1..]);
      ScanOverlapSound(expand, now, cand, dur, schedules, peers[1..], id);
    }
  }

  /** The peer has a well-formed rule and overlaps the candidate. */
  predicate PeerFails(expand: Expander, now: int, cand: seq<int>, dur: Option<int>, s: Schedule) {
    && expand(s.cron, now, Horizon).Some? && dur.Some? && s.durationMinutes.Some?
    && AnyPairOverlaps(cand, dur.value, expand(s.cron, now, Horizon).value, s.durationMinutes.value)
  }

  /** A malformed-rule verdict names the rule of a peer that croniter rejects. */
  lemma {:induction false} ScanMalformedSound(expand: Expander, now: int, cand: seq<int>, dur: Option<int>,
                                               schedules: seq<Schedule>, peers: seq<int>, rule: string)
    requires AllIds(schedules, peers)
    requires Scan(expand, now, cand, dur, schedules, peers) == MalformedRule(rule)
    ensures exists k :: 0 <= k < |peers| && Row(schedules, peers[k]).cron == rule && expand(rule, now, Horizon).None?
  {
    if expand(Row(schedules, peers[0]).cron, now, Horizon).Some? {
      assert AllIds(schedules, peers[1..]);
      ScanMalformedSound(expand, now, cand, dur, schedules, peers[1..], rule);
      var k :| 0 <= k < |peers[1..]| && Row(schedules, peers[1..][k]).cron == rule && expand(rule, now, Horizon).None?;
      assert peers[1..][k] == peers[k + 1];
    } else {
      assert Row(schedules, peers[0]).cron == rule;
    }
  }

  /** Every rule involved in the check is one croniter accepts. */
  predicate RulesWellFormed(expand: Expander, now: int, rule: string, schedules: seq<Schedule>, peers: seq<int>)
    requires AllIds(schedules, peers)
  {
    && expand(rule, now, Horizon).Some?
    && forall k :: 0 <= k < |peers| ==> expand(Row(schedules, peers[k]).cron, now, Horizon).Some?
  }

  /**
   * With well-formed rules the check is a plain yes/no: it reports an overlap
   * exactly when some peer of known duration has an occurrence overlapping
   * one of the candidate's (each window extended by its own duration).
   */
  lemma CheckRejectsIffOverlap(types: seq<PeripheralType>, sections: seq<Section>, mappings: seq<Mapping>, schedules: seq<Schedule>,
                               m: Mapping, rule: string, dur: Option<int>, exclude: Option<int>, now: int, expand: Expander)
    requires AllIds(schedules, Peers(types, sections, mappings, schedules, m, exclude))
    requires RulesWellFormed(expand, now, rule, schedules, Peers(types, sections, mappings, schedules, m, exclude))
    ensures !ExclusiveCheck(types, sections, mappings, schedules, m, rule, dur, exclude, now, expand).MalformedRule?
    ensures var peers := Peers(types, sections, mappings, schedules, m, exclude);
      (ExclusiveCheck(types, sections, mappings, schedules, m, rule, dur, exclude, now, expand) != Clear) <==>
      (exists k :: 0 <= k < |peers| && PeerFails(expand, now, expand(rule, now, Horizon).value, dur, Row(schedules, peers[k])))
  {
    var peers := Peers(types, sections, mappings, schedules, m, exclude);
    var cand := expand(rule, now, Horizon).value;
    ScanClearIff(expand, now, cand, dur, schedules, peers);
    var v := Scan(expand, now, cand, dur, schedules, peers);
    if v.MalformedRule? {
      ScanMalformedSound(expand, now, cand, dur, schedules, peers, v.rule);
    }
  }

  /**
   * Scope symmetry: a live exclusive mapping wired to farm F and a live
   * exclusive mapping on a section of F each count the other's live
   * schedules among the peers of their checks.
   */
  lemma FarmAndSectionMappingsArePeers(types: seq<PeripheralType>, sections: seq<Section>, mappings: seq<Mapping>,
                                       schedules: seq<Schedule>, farmScoped: int, sectionScoped: int)
    requires IsId(mappings, farmScoped) && IsId(mappings, sectionScoped)
    requires var a := Row(mappings, farmScoped); var b := Row(mappings, sectionScoped);
      && !a.isDeleted && IsExclusiveType(types, a.typeId) && a.farmId.Some?
      && !b.isDeleted && IsExclusiveType(types, b.typeId) && b.farmId.None? && b.sectionId.Some?
      && IsId(sections, b.sectionId.value) && Row(sections, b.sectionId.value).farmId == a.farmId.value
    ensures forall id ::
              IsId(schedules, id) && !Row(schedules, id).isDeleted && Row(schedules, id).mappingId == sectionScoped ==>
              id in Peers(types, sections, mappings, schedules, Row(mappings, farmScoped), None)
    ensures forall id ::
              IsId(schedules, id) && !Row(schedules, id).isDeleted && Row(schedules, id).mappingId == farmScoped ==>
              id in Peers(types, sections, mappings, schedules, Row(mappings, sectionScoped), None)
  {
    forall id | IsId(schedules, id) && !Row(schedules, id).isDeleted && Row(schedules, id).mappingId == sectionScoped
      ensures id in Peers(types, sections, mappings, schedules, Row(mappings, farmScoped), None)
    {
      PeersExactly(types, sections, mappings, schedules, Row(mappings, farmScoped), None, id);
    }
    forall id | IsId(schedules, id) && !Row(schedules, id).isDeleted && Row(schedules, id).mappingId == farmScoped
      ensures id in Peers(types, sections, mappings, schedules, Row(mappings, sectionScoped), None)
    {
      PeersExactly(types, sections, mappings, schedules, Row(mappings, sectionScoped), None, id);
    }
  }
}
