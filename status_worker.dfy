/**
 * The device liveness tracker of backend/app/mqtt_status_worker.py: decoding
 * a status message, the update of the reporting device, and one pass of the
 * offline sweep. Instants are whole seconds on one clock; `now` and the ISO
 * 8601 parser are parameters. The MQTT client, the thread and the one-minute
 * sleep are not modelled.
 */
module StatusWorker {
  import opened Wrappers
  import opened Records
  import opened Store
  import opened Topics

  /** A value json.loads returns (numbers are integers in the model). */
  datatype Json = JNull | JBool(b: bool) | JNum(n: int) | JStr(s: string) | JArr(items: seq<Json>) | JObj(fields: seq<(string, Json)>)

  /** Python truthiness of a decoded value. */
  predicate Truthful(v: Json) {
    match v
    case JNull => false
    case JBool(b) => b
    case JNum(n) => n != 0
    case JStr(s) => s != ""
    case JArr(items) => items != []
    case JObj(fields) => fields != []
  }

  /** dict.get(key) on a decoded object: the value of the last field with that key (json.loads keeps the last). */
  function Get(fields: seq<(string, Json)>, key: string): (r: Option<Json>)
    ensures r.None? <==> forall k :: 0 <= k < |fields| ==> fields[k].0 != key
  {
    if fields == [] then None
    else if fields[|fields| - 1].0 == key then Some(fields[|fields| - 1].1)
    else
      var init := fields[..|fields| - 1];
      assert forall k :: 0 <= k < |init| ==> init[k] == fields[k];
      Get(init, key)
  }

  /** A found value is that of a field with the key after which no field has it. */
  lemma {:induction false} GetIsLast(fields: seq<(string, Json)>, key: string)
    requires Get(fields, key).Some?
    ensures exists k :: 0 <= k < |fields| && fields[k] == (key, Get(fields, key).value)
                        && forall k' :: k < k' < |fields| ==> fields[k'].0 != key
  {
    var n := |fields| - 1;
    if fields[n].0 != key {
      var init := fields[..n];
      GetIsLast(init, key);
      var k :| 0 <= k < |init| && init[k] == (key, Get(init, key).value)
               && forall k' :: k < k' < |init| ==> init[k'].0 != key;
      assert fields[k] == init[k];
      assert forall k' :: k < k' < n ==> fields[k'] == init[k'];
    } else {
      assert fields[n] == (key, Get(fields, key).value);
    }
  }

  /** str.replace(c, repl): every occurrence of c replaced by repl. */
  function ReplaceAll(s: string, c: char, repl: string): (r: string)
    ensures c !in repl ==> c !in r
  {
    if s == [] then [] else (if s[0] == c then repl else [s[0]]) + ReplaceAll(s[1..], c, repl)
  }

  /** A string without c is left as it is. */
  lemma {:induction false} ReplaceAllAbsent(s: string, c: char, repl: string)
    requires c !in s
    ensures ReplaceAll(s, c, repl) == s
  {
    if s != [] {
      ReplaceAllAbsent(s[1..], c, repl);
      assert s == [s[0]] + s[1..];
    }
  }

  /** Replacement works piece by piece over a concatenation. */
  lemma {:induction false} ReplaceAllAppend(a: string, b: string, c: char, repl: string)
    ensures ReplaceAll(a + b, c, repl) == ReplaceAll(a, c, repl) + ReplaceAll(b, c, repl)
  {
    if a == [] {
      assert a + b == b;
    } else {
      assert (a + b)[0] == a[0] && (a + b)[1..] == a[1..] + b;
      ReplaceAllAppend(a[1..], b, c, repl);
    }
  }

  /** datetime.fromisoformat, as seconds on the model's clock; None where it raises. */
  type IsoParser = string -> Option<int>

  /** What a status message sets on the device: status (None is SQL NULL) and last_seen. */
  datatype Report = Report(status: Option<string>, lastSeen: int)

  /**
   * The payload part of handle_status: None for a dropped message (malformed
   * JSON, a payload that is not an object, a timestamp that is truthy but not
   * a string or does not parse, or a status that is neither a string nor null).
   */
  function DecodeStatus(payload: Option<Json>, now: int, parseIso: IsoParser): Option<Report> {
    if payload.None? || !payload.value.JObj? then None
    else
      var fields := payload.value.fields;
      var status := Get(fields, "status");
      var timestamp := Get(fields, "timestamp");
      if status.Some? && !(status.value.JStr? || status.value.JNull?) then None
      else
        var stored := if status.None? then Some("online") else if status.value.JStr? then Some(status.value.s) else None;
        if timestamp.None? || !Truthful(timestamp.value) then Some(Report(stored, now))
        else if !timestamp.value.JStr? then None
        else
          var t := parseIso(ReplaceAll(timestamp.value.s, 'Z', "+00:00"));
          if t.None? then None else Some(Report(stored, t.value))
  }

  /** A message with no status field reports "online"; one with no or an empty timestamp is seen at `now`. */
  lemma DecodeDefaults(fields: seq<(string, Json)>, now: int, parseIso: IsoParser)
    requires forall k :: 0 <= k < |fields| ==> fields[k].0 != "status"
    requires forall k :: 0 <= k < |fields| ==> fields[k].0 != "timestamp" || fields[k].1 in {JNull, JStr("")}
    ensures DecodeStatus(Some(JObj(fields)), now, parseIso) == Some(Report(Some("online"), now))
  {
    var ts := Get(fields, "timestamp");
    if ts.Some? {
      GetIsLast(fields, "timestamp");
      var k :| 0 <= k < |fields| && fields[k] == ("timestamp", ts.value)
               && forall k' :: k < k' < |fields| ==> fields[k'].0 != "timestamp";
    }
  }

  /** Malformed JSON and a payload that is not an object are dropped. */
  lemma DecodeDropsNonObjects(payload: Option<Json>, now: int, parseIso: IsoParser)
    requires payload.None? || !payload.value.JObj?
    ensures DecodeStatus(payload, now, parseIso).None?
  {
  }

  /** A string status and a non-empty string time stamp: the status as sent, last_seen as parsed after the Z rewrite. */
  lemma DecodeStringFields(fields: seq<(string, Json)>, now: int, parseIso: IsoParser, status: string, ts: string)
    requires Get(fields, "status") == Some(JStr(status))
    requires Get(fields, "timestamp") == Some(JStr(ts)) && ts != ""
    ensures var t := parseIso(ReplaceAll(ts, 'Z', "+00:00"));
      DecodeStatus(Some(JObj(fields)), now, parseIso) == if t.None? then None else Some(Report(Some(status), t.value))
  {
  }

  /**
   * A UTC time stamp such as 2025-01-01T00:00:00Z is handed to the parser
   * with the Z rewritten to +00:00, and the status is stored as sent.
   */
  lemma DecodeZuluTimestamp(status: string, date: string, now: int, parseIso: IsoParser, t: int)
    requires 'Z' !in date
    requires parseIso(date + "+00:00") == Some(t)
    ensures DecodeStatus(Some(JObj([("status", JStr(status)), ("timestamp", JStr(date + "Z"))])), now, parseIso)
         == Some(Report(Some(status), t))
  {
    var fields := [("status", JStr(status)), ("timestamp", JStr(date + "Z"))];
    assert fields[..1] == [("status", JStr(status))];
    assert Get(fields, "status") == Some(JStr(status));
    assert Get(fields, "timestamp") == Some(JStr(date + "Z"));
    ReplaceAllAppend(date, "Z", 'Z', "+00:00");
    ReplaceAllAbsent(date, 'Z', "+00:00");
    assert ReplaceAll("Z", 'Z', "+00:00") == "+00:00";
    DecodeStringFields(fields, now, parseIso, status, date + "Z");
  }

  /** A time stamp the parser rejects drops the message. */
  lemma DecodeDropsBadTimestamp(fields: seq<(string, Json)>, now: int, parseIso: IsoParser, s: string)
    requires Get(fields, "timestamp") == Some(JStr(s)) && s != ""
    requires parseIso(ReplaceAll(s, 'Z', "+00:00")).None?
    ensures DecodeStatus(Some(JObj(fields)), now, parseIso).None?
  {
  }

  /** The device a status message updates: the first live device whose device_uid is the topic's device segment. */
  function FirstLiveWithUid(devices: seq<Device>, uid: string): (r: Option<int>)
    ensures r.None? <==> forall k :: 0 <= k < |devices| ==> devices[k].isDeleted || devices[k].deviceUid != uid
    ensures r.Some? ==> && IsId(devices, r.value) && !Row(devices, r.value).isDeleted
                        && Row(devices, r.value).deviceUid == uid
                        && forall k :: 0 <= k < r.value - 1 ==> devices[k].isDeleted || devices[k].deviceUid != uid
  {
    if devices == [] then None
    else
      var init := devices[..|devices| - 1];
      var r := FirstLiveWithUid(init, uid);
      assert forall k :: 0 <= k < |init| ==> init[k] == devices[k];
      if r.Some? then r
      else if !devices[|devices| - 1].isDeleted && devices[|devices| - 1].deviceUid == uid then Some(|devices|)
      else None
  }

  /** The device table after a decoded report for the device segment uid. */
  function ApplyReport(devices: seq<Device>, uid: string, report: Report): seq<Device> {
    match FirstLiveWithUid(devices, uid)
    case None => devices
    case Some(id) => devices[id - 1 := devices[id - 1].(status := report.status, lastSeen := Some(report.lastSeen))]
  }

  /** The device table after on_message: only a matched status topic with a decodable payload changes it. */
  function OnMessageOutcome(devices: seq<Device>, topic: string, payload: Option<Json>, now: int, parseIso: IsoParser)
    : seq<Device>
  {
    match RouteOf(topic)
    case StatusRoute(_, device) =>
      var report := DecodeStatus(payload, now, parseIso);
      if report.None? then devices else ApplyReport(devices, device, report.value)
    case _ => devices
  }

  /** handle_status: match the topic, decode the payload, update the first live device with the uid. */
  method HandleStatus(db: Db, topic: string, payload: Option<Json>, now: int, parseIso: IsoParser)
    modifies db`devices
    ensures MatchTopic(topic, "status").Some? ==>
      db.devices == OnMessageOutcome(old(db.devices), topic, payload, now, parseIso)
    ensures MatchTopic(topic, "status").None? ==> db.devices == old(db.devices)
  {
    var m := MatchTopic(topic, "status");
    if m.None? {
      return;
    }
    var report := DecodeStatus(payload, now, parseIso);
    if report.None? {
      return;
    }
    var id := FirstLiveWithUid(db.devices, m.value.1);
    if id.Some? {
      db.devices := db.devices[id.value - 1 := db.devices[id.value - 1].(status := report.value.status,
                                                                          lastSeen := Some(report.value.lastSeen))];
    }
  }

  /** on_message: dispatch on the first matching pattern; the logs, events and commands handlers change nothing. */
  method OnMessage(db: Db, topic: string, payload: Option<Json>, now: int, parseIso: IsoParser)
    modifies db`devices
    ensures db.devices == OnMessageOutcome(old(db.devices), topic, payload, now, parseIso)
  {
    if RouteOf(topic).StatusRoute? {
      HandleStatus(db, topic, payload, now, parseIso);
    }
  }

  /** A report changes at most the status and last_seen of the first live device with the uid. */
  lemma ReportTouchesOneDevice(devices: seq<Device>, uid: string, report: Report)
    ensures var after := ApplyReport(devices, uid, report);
      && |after| == |devices|
      && (forall k :: 0 <= k < |devices| ==>
            after[k] == devices[k].(status := after[k].status, lastSeen := after[k].lastSeen))
      && (forall k :: 0 <= k < |devices| && after[k] != devices[k] ==> FirstLiveWithUid(devices, uid) == Some(k + 1))
  {
  }

  /**
   * A message changes at most the status and last_seen of one live device,
   * the first whose uid is the topic's device segment; a topic of another
   * kind, an unknown uid or a dropped payload changes nothing.
   */
  lemma MessageTouchesOneDevice(devices: seq<Device>, topic: string, payload: Option<Json>, now: int, parseIso: IsoParser)
    ensures var after := OnMessageOutcome(devices, topic, payload, now, parseIso);
      && |after| == |devices|
      && (forall k :: 0 <= k < |devices| ==>
            after[k] == devices[k].(status := after[k].status, lastSeen := after[k].lastSeen))
      && (forall k :: 0 <= k < |devices| && after[k] != devices[k] ==>
            && RouteOf(topic).StatusRoute? && DecodeStatus(payload, now, parseIso).Some?
            && FirstLiveWithUid(devices, RouteOf(topic).device) == Some(k + 1))
  {
    var route := RouteOf(topic);
    if route.StatusRoute? {
      var report := DecodeStatus(payload, now, parseIso);
      if report.Some? {
        ReportTouchesOneDevice(devices, route.device, report.value);
      }
    }
  }

  /** The farm segment of the topic plays no part: only the device segment selects the device. */
  lemma FarmSegmentIgnored(devices: seq<Device>, farm1: string, farm2: string, device: string,
                           payload: Option<Json>, now: int, parseIso: IsoParser)
    requires farm1 != [] && farm2 != [] && device != [] && '/' !in farm1 && '/' !in farm2 && '/' !in device
    ensures OnMessageOutcome(devices, FarmPrefix + farm1 + DeviceInfix + device + "/status", payload, now, parseIso)
         == OnMessageOutcome(devices, FarmPrefix + farm2 + DeviceInfix + device + "/status", payload, now, parseIso)
  {
    StatusTopicRoute(farm1, device);
    StatusTopicRoute(farm2, device);
  }

  /** farm/<farm>/device/<device>/status is routed to handle_status with those segments. */
  lemma StatusTopicRoute(farm: string, device: string)
    requires farm != [] && device != [] && '/' !in farm && '/' !in device
    ensures RouteOf(FarmPrefix + farm + DeviceInfix + device + "/status") == StatusRoute(farm, device)
  {
    var topic := FarmPrefix + farm + DeviceInfix + device + "/status";
    MatchComplete(topic, "status", farm, device);
  }

  /** A device overdue at `now`: live, seen before, silent for more than the threshold, and not already offline. */
  predicate Overdue(d: Device, now: int, thresholdMinutes: int) {
    && !d.isDeleted
    && d.lastSeen.Some?
    && now - d.lastSeen.value > thresholdMinutes * 60
    && d.status != Some("offline")
  }

  /** The device table after one pass of the sweep. */
  function Swept(devices: seq<Device>, now: int, thresholdMinutes: int): (r: seq<Device>)
    ensures |r| == |devices|
  {
    seq(|devices|, k requires 0 <= k < |devices| =>
      if Overdue(devices[k], now, thresholdMinutes) then devices[k].(status := Some("offline")) else devices[k])
  }

  /** One pass of check_and_update_offline_devices over the live devices. */
  method SweepOffline(db: Db, now: int, thresholdMinutes: int)
    modifies db`devices
    ensures db.devices == Swept(old(db.devices), now, thresholdMinutes)
  {
    var k := 0;
    while k < |db.devices|
      invariant 0 <= k <= |db.devices| == |old(db.devices)|
      invariant forall j :: 0 <= j < k ==> db.devices[j] == Swept(old(db.devices), now, thresholdMinutes)[j]
      invariant forall j :: k <= j < |db.devices| ==> db.devices[j] == old(db.devices)[j]
    {
      var device := db.devices[k];
      if !device.isDeleted && device.lastSeen.Some? {
        var elapsed := now - device.lastSeen.value;
        if elapsed > thresholdMinutes * 60 && device.status != Some("offline") {
          db.devices := db.devices[k := device.(status := Some("offline"))];
        }
      }
      k := k + 1;
    }
  }

  /**
   * The sweep changes exactly the overdue devices, and only their status;
   * deleted devices and devices never seen stay as they were.
   */
  lemma SweepChangesExactlyOverdue(devices: seq<Device>, now: int, thresholdMinutes: int)
    ensures var after := Swept(devices, now, thresholdMinutes);
      && (forall k :: 0 <= k < |devices| ==> (after[k] != devices[k] <==> Overdue(devices[k], now, thresholdMinutes)))
      && (forall k :: 0 <= k < |devices| ==> after[k] == devices[k].(status := after[k].status))
      && (forall k :: 0 <= k < |devices| && (devices[k].isDeleted || devices[k].lastSeen.None?) ==> after[k] == devices[k])
  {
  }

  /** After a sweep, every live device silent for longer than the threshold is offline. */
  lemma SweepLeavesNoStaleOnline(devices: seq<Device>, now: int, thresholdMinutes: int)
    ensures var after := Swept(devices, now, thresholdMinutes);
      forall k :: (0 <= k < |after| && !after[k].isDeleted && after[k].lastSeen.Some?
                   && now - after[k].lastSeen.value > thresholdMinutes * 60) ==> after[k].status == Some("offline")
  {
  }

  /**
   * The offline threshold as the shipped settings provide it: they declare
   * no offline_threshold_minutes, so reading it raises.
   */
  const ShippedThreshold: Option<int> := None

  /**
   * One pass of the sweep as written: the threshold is read before any row
   * is touched, so a missing setting raises, the handler rolls back, and the
   * table stays as it was.
   */
  function SweptAsWritten(devices: seq<Device>, now: int, threshold: Option<int>): seq<Device> {
    match threshold
    case None => devices
    case Some(t) => Swept(devices, now, t)
  }

  /**
   * Under the shipped settings an overdue device is never demoted, while the
   * intended sweep with any threshold that makes it overdue marks it offline.
   */
  lemma AsWrittenSweepNeverDemotes(devices: seq<Device>, now: int, t: int, k: int)
    requires 0 <= k < |devices| && Overdue(devices[k], now, t)
    ensures SweptAsWritten(devices, now, ShippedThreshold)[k].status != Some("offline")
    ensures Swept(devices, now, t)[k].status == Some("offline")
  {
  }

  /** The comparison is strict: silent for exactly the threshold stays, one second more is demoted. */
  lemma SweepBoundary(d: Device, now: int, thresholdMinutes: int)
    requires !d.isDeleted && d.status != Some("offline")
    ensures d.lastSeen == Some(now - thresholdMinutes * 60) ==> Swept([d], now, thresholdMinutes) == [d]
    ensures d.lastSeen == Some(now - thresholdMinutes * 60 - 1) ==>
      Swept([d], now, thresholdMinutes) == [d.(status := Some("offline"))]
  {
  }

  /** A second sweep at the same instant changes nothing. */
  lemma SweepIdempotent(devices: seq<Device>, now: int, thresholdMinutes: int)
    ensures Swept(Swept(devices, now, thresholdMinutes), now, thresholdMinutes) == Swept(devices, now, thresholdMinutes)
  {
    var once := Swept(devices, now, thresholdMinutes);
    assert forall k :: 0 <= k < |once| ==> !Overdue(once[k], now, thresholdMinutes);
  }

  /** A device that has just reported without a time stamp is not demoted by a sweep at the same instant. */
  lemma FreshReportSurvivesSweep(devices: seq<Device>, uid: string, status: Option<string>, now: int, thresholdMinutes: int)
    requires thresholdMinutes >= 0
    requires FirstLiveWithUid(devices, uid).Some?
    ensures var id := FirstLiveWithUid(devices, uid).value;
      Swept(ApplyReport(devices, uid, Report(status, now)), now, thresholdMinutes)[id - 1]
        == devices[id - 1].(status := status, lastSeen := Some(now))
  {
  }

  /** Neither a report nor the sweep touches farm_id or is_deleted, so one live device per farm is kept. */
  lemma WorkerKeepsFarmsAndLiveness(devices: seq<Device>, uid: string, report: Report, now: int, thresholdMinutes: int)
    ensures var a := ApplyReport(devices, uid, report);
      var b := Swept(devices, now, thresholdMinutes);
      && |a| == |devices| && |b| == |devices|
      && (forall k :: 0 <= k < |devices| ==> a[k].farmId == devices[k].farmId && a[k].isDeleted == devices[k].isDeleted)
      && (forall k :: 0 <= k < |devices| ==> b[k].farmId == devices[k].farmId && b[k].isDeleted == devices[k].isDeleted)
  {
  }
}
