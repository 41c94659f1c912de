/**
 * The cascade shared by delete_peripheral_mapping, delete_section and
 * delete_farm: for each selected mapping, set its is_deleted flag and the
 * flag of each of its live schedules.
 */
module SoftDelete {
  import opened Records
  import opened Store

  /** The set of ids a query returned. */
  function Elems(ids: seq<int>): set<int> {
    set k | 0 <= k < |ids| :: ids[k]
  }

  /** The ids of the live mappings satisfying p, in id order: a query on the mapping table. */
  function LiveMappingIds(mappings: seq<Mapping>, p: Mapping -> bool): (ids: seq<int>)
    ensures forall k :: 0 <= k < |ids| ==> IsId(mappings, ids[k])
    ensures Elems(ids) == set k | 0 <= k < |mappings| && !mappings[k].isDeleted && p(mappings[k]) :: k + 1
  {
    var ids := IdsWhere(|mappings|, id => 1 <= id <= |mappings| && !mappings[id - 1].isDeleted && p(mappings[id - 1]));
    assert forall k :: 0 <= k < |ids| ==> ids[k] in ids;
    ghost var want := set k | 0 <= k < |mappings| && !mappings[k].isDeleted && p(mappings[k]) :: k + 1;
    forall id | id in want ensures id in Elems(ids) {
      assert id in ids;
      var k :| 0 <= k < |ids| && ids[k] == id;
    }
    ids
  }

  lemma ElemsAppend(a: seq<int>, b: seq<int>)
    ensures Elems(a + b) == Elems(a) + Elems(b)
  {
    forall x | x in Elems(a) ensures x in Elems(a + b) {
      var k :| 0 <= k < |a| && a[k] == x;
      assert (a + b)[k] == x;
    }
    forall x | x in Elems(b) ensures x in Elems(a + b) {
      var k :| 0 <= k < |b| && b[k] == x;
      assert (a + b)[|a| + k] == x;
    }
  }

  /** Every mapping whose id is in sel is deleted; nothing else changes. */
  function MarkMappings(mappings: seq<Mapping>, sel: set<int>): (r: seq<Mapping>)
    ensures |r| == |mappings|
  {
    seq(|mappings|, k requires 0 <= k < |mappings| =>
      if k + 1 in sel then mappings[k].(isDeleted := true) else mappings[k])
  }

  /** Every schedule of a mapping in sel is deleted; nothing else changes. */
  function MarkSchedulesOf(schedules: seq<Schedule>, sel: set<int>): (r: seq<Schedule>)
    ensures |r| == |schedules|
  {
    seq(|schedules|, j requires 0 <= j < |schedules| =>
      if schedules[j].mappingId in sel then schedules[j].(isDeleted := true) else schedules[j])
  }

  /** The link the cascades keep: each live schedule belongs to an existing, live mapping. */
  predicate LiveSchedulesHaveLiveMappings(mappings: seq<Mapping>, schedules: seq<Schedule>) {
    forall j :: 0 <= j < |schedules| && !schedules[j].isDeleted ==>
      IsId(mappings, schedules[j].mappingId) && !Row(mappings, schedules[j].mappingId).isDeleted
  }

  /**
   * The nested loops of the delete endpoints over the ids the query returned
   * (a list that may repeat an id): each mapping is marked, then each of its
   * live schedules.
   */
  method Cascade(db: Db, ids: seq<int>)
    requires forall k :: 0 <= k < |ids| ==> IsId(db.mappings, ids[k])
    modifies db`mappings, db`schedules
    ensures db.mappings == MarkMappings(old(db.mappings), Elems(ids))
    ensures db.schedules == MarkSchedulesOf(old(db.schedules), Elems(ids))
  {
    var i := 0;
    while i < |ids|
      invariant 0 <= i <= |ids|
      invariant db.mappings == MarkMappings(old(db.mappings), Elems(ids[..i]))
      invariant db.schedules == MarkSchedulesOf(old(db.schedules), Elems(ids[..i]))
    {
      var id := ids[i];
      assert Elems(ids[..i + 1]) == Elems(ids[..i]) + {id} by {
        assert forall k :: 0 <= k < i ==> ids[..i + 1][k] == ids[..i][k];
        assert ids[..i + 1][i] == id;
      }
      db.mappings := db.mappings[id - 1 := db.mappings[id - 1].(isDeleted := true)];
      assert forall k :: 0 <= k < |db.mappings| ==>
        db.mappings[k] == MarkMappings(old(db.mappings), Elems(ids[..i + 1]))[k];
      var j := 0;
      while j < |db.schedules|
        invariant 0 <= j <= |db.schedules| == |old(db.schedules)|
        invariant db.mappings == MarkMappings(old(db.mappings), Elems(ids[..i + 1]))
        invariant forall j' :: 0 <= j' < j ==> db.schedules[j'] == MarkSchedulesOf(old(db.schedules), Elems(ids[..i + 1]))[j']
        invariant forall j' :: j <= j' < |db.schedules| ==> db.schedules[j'] == MarkSchedulesOf(old(db.schedules), Elems(ids[..i]))[j']
      {
        if db.schedules[j].mappingId == id && !db.schedules[j].isDeleted {
          db.schedules := db.schedules[j := db.schedules[j].(isDeleted := true)];
        }
        j := j + 1;
      }
      i := i + 1;
    }
    assert ids[..i] == ids;
  }

  /** After a cascade no schedule of a selected mapping is live. */
  lemma CascadeLeavesNoLiveSchedule(schedules: seq<Schedule>, sel: set<int>, j: int)
    requires 0 <= j < |schedules| && schedules[j].mappingId in sel
    ensures MarkSchedulesOf(schedules, sel)[j].isDeleted
  {
  }

  /** A cascade changes only the is_deleted flag of selected mappings and of their schedules. */
  lemma CascadeTouchesOnlySelected(mappings: seq<Mapping>, schedules: seq<Schedule>, sel: set<int>)
    ensures forall k :: 0 <= k < |mappings| && k + 1 !in sel ==> MarkMappings(mappings, sel)[k] == mappings[k]
    ensures forall k :: 0 <= k < |mappings| ==> MarkMappings(mappings, sel)[k].(isDeleted := mappings[k].isDeleted) == mappings[k]
    ensures forall j :: 0 <= j < |schedules| && schedules[j].mappingId !in sel ==> MarkSchedulesOf(schedules, sel)[j] == schedules[j]
    ensures forall j :: 0 <= j < |schedules| ==> MarkSchedulesOf(schedules, sel)[j].(isDeleted := schedules[j].isDeleted) == schedules[j]
  {
  }

  /** A cascade keeps every live schedule attached to a live mapping. */
  lemma CascadeKeepsLiveLinks(mappings: seq<Mapping>, schedules: seq<Schedule>, sel: set<int>)
    requires LiveSchedulesHaveLiveMappings(mappings, schedules)
    ensures LiveSchedulesHaveLiveMappings(MarkMappings(mappings, sel), MarkSchedulesOf(schedules, sel))
  {
    var ms := MarkMappings(mappings, sel);
    var ss := MarkSchedulesOf(schedules, sel);
    forall j | 0 <= j < |ss| && !ss[j].isDeleted
      ensures IsId(ms, ss[j].mappingId) && !Row(ms, ss[j].mappingId).isDeleted
    {
      assert ss[j] == schedules[j] && schedules[j].mappingId !in sel;
    }
  }
}
