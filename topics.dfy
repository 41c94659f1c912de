/**
 * The topic patterns of backend/app/mqtt_status_worker.py and the dispatch
 * of on_message. Each pattern is farm/([^/]+)/device/([^/]+)/<kind>, applied
 * with re.match: anchored at the start of the topic only, so anything may
 * follow the kind.
 */
module Topics {
  import opened Wrappers

  const FarmPrefix := "farm/"
  const DeviceInfix := "/device/"

  /** The four message kinds, in the order on_message tries them. */
  const Kinds: seq<string> := ["status", "logs", "events", "commands"]

  /** The longest prefix of s without a slash: what [^/]+ consumes before a literal '/'. */
  function Segment(s: string): (r: string)
    ensures r <= s
    ensures '/' !in r
    ensures |r| < |s| ==> s[|r|] == '/'
  {
    if s == [] || s[0] == '/' then [] else [s[0]] + Segment(s[1..])
  }

  /** A segment followed by a slash is read back whole. */
  lemma {:induction false} SegmentOf(seg: string, tail: string)
    requires '/' !in seg && tail != [] && tail[0] == '/'
    ensures Segment(seg + tail) == seg
  {
    if seg != [] {
      assert (seg + tail)[0] == seg[0] && (seg + tail)[1..] == seg[1..] + tail;
      SegmentOf(seg[1..], tail);
    } else {
      assert seg + tail == tail;
    }
  }

  /**
   * The match of farm/([^/]+)/device/([^/]+)/<kind> at the start of the
   * topic: the farm and device segments, or None.
   */
  function MatchTopic(topic: string, kind: string): Option<(string, string)> {
    if !(FarmPrefix <= topic) then None
    else
      var rest := topic[|FarmPrefix|..];
      var farm := Segment(rest);
      var afterFarm := rest[|farm|..];
      if farm == [] || !(DeviceInfix <= afterFarm) then None
      else
        var rest2 := afterFarm[|DeviceInfix|..];
        var device := Segment(rest2);
        var afterDevice := rest2[|device|..];
        if device == [] || !("/" + kind <= afterDevice) then None
        else Some((farm, device))
  }

  /** The topic begins with farm/<farm>/device/<device>/<kind>, both segments non-empty and slash-free. */
  predicate Matches(topic: string, kind: string, farm: string, device: string) {
    && farm != [] && device != [] && '/' !in farm && '/' !in device
    && FarmPrefix + farm + DeviceInfix + device + "/" + kind <= topic
  }

  /** A prefix followed by a prefix of the rest is a prefix. */
  lemma PrefixThen(p: string, q: string, s: string)
    requires p <= s && q <= s[|p|..]
    ensures p + q <= s
  {
    assert (p + q)[..|p|] == p;
    forall i | |p| <= i < |p + q| ensures (p + q)[i] == s[i] {
      assert (p + q)[i] == q[i - |p|] == s[|p|..][i - |p|];
    }
  }

  /** The matcher finds exactly the segments of the pattern. */
  lemma MatchSound(topic: string, kind: string)
    requires MatchTopic(topic, kind).Some?
    ensures Matches(topic, kind, MatchTopic(topic, kind).value.0, MatchTopic(topic, kind).value.1)
  {
    var rest := topic[|FarmPrefix|..];
    var farm := Segment(rest);
    var afterFarm := rest[|farm|..];
    var rest2 := afterFarm[|DeviceInfix|..];
    var device := Segment(rest2);
    var afterDevice := rest2[|device|..];
    assert MatchTopic(topic, kind) == Some((farm, device));
    var k := "/" + kind;
    var tail4 := device + k;
    var tail3 := DeviceInfix + tail4;
    var tail2 := farm + tail3;
    assert tail4 <= rest2 by { PrefixThen(device, k, rest2); }
    assert tail3 <= afterFarm by { PrefixThen(DeviceInfix, tail4, afterFarm); }
    assert tail2 <= rest by { PrefixThen(farm, tail3, rest); }
    assert FarmPrefix + tail2 <= topic by { PrefixThen(FarmPrefix, tail2, topic); }
    Regroup(FarmPrefix, farm, DeviceInfix, device, "/", kind);
  }

  /** Concatenation regrouped from the right to the left. */
  lemma Regroup(a: string, b: string, c: string, d: string, e: string, f: string)
    ensures a + (b + (c + (d + (e + f)))) == a + b + c + d + e + f
  {
  }

  lemma MatchComplete(topic: string, kind: string, farm: string, device: string)
    requires Matches(topic, kind, farm, device)
    ensures MatchTopic(topic, kind) == Some((farm, device))
  {
    var tail := topic[|FarmPrefix + farm + DeviceInfix + device + "/" + kind|..];
    var afterDevice := "/" + kind + tail;
    var rest2 := device + afterDevice;
    var afterFarm := DeviceInfix + rest2;
    var rest := farm + afterFarm;
    assert topic == FarmPrefix + rest;
    assert rest == topic[|FarmPrefix|..];
    SegmentOf(farm, afterFarm);
    assert rest[|farm|..] == afterFarm;
    assert afterFarm[|DeviceInfix|..] == rest2;
    SegmentOf(device, afterDevice);
    assert rest2[|device|..] == afterDevice;
  }

  /** MatchTopic(topic, kind) == Some((farm, device)) exactly when the topic fits the pattern with those segments. */
  lemma MatchIff(topic: string, kind: string, farm: string, device: string)
    ensures MatchTopic(topic, kind) == Some((farm, device)) <==> Matches(topic, kind, farm, device)
  {
    if MatchTopic(topic, kind) == Some((farm, device)) {
      MatchSound(topic, kind);
    }
    if Matches(topic, kind, farm, device) {
      MatchComplete(topic, kind, farm, device);
    }
  }

  /** A topic built from two segments is matched back to them, whatever follows the kind. */
  lemma BuildThenMatch(kind: string, farm: string, device: string, tail: string)
    requires farm != [] && device != [] && '/' !in farm && '/' !in device
    ensures MatchTopic(FarmPrefix + farm + DeviceInfix + device + "/" + kind + tail, kind) == Some((farm, device))
  {
    MatchComplete(FarmPrefix + farm + DeviceInfix + device + "/" + kind + tail, kind, farm, device);
  }

  /** The character right after a prefix p of the topic is the first character of what follows p. */
  lemma CharAfterPrefix(p: string, k: string, topic: string)
    requires |k| > 0 && p + k <= topic
    ensures topic[|p|] == k[0]
  {
    assert (p + k)[|p|] == k[0];
  }

  /**
   * A match of a kind fixes the character that follows farm/<farm>/device/<device>/:
   * it is the kind's first letter.
   */
  lemma KindCharacter(topic: string, kind: string)
    requires |kind| > 0 && MatchTopic(topic, kind).Some?
    ensures MatchTopic(topic, "").Some?
    ensures var h := FarmPrefix + MatchTopic(topic, "").value.0 + DeviceInfix + MatchTopic(topic, "").value.1 + "/";
      |h| < |topic| && topic[|h|] == kind[0]
  {
    var m := MatchTopic(topic, kind).value;
    MatchSound(topic, kind);
    var h := FarmPrefix + m.0 + DeviceInfix + m.1 + "/";
    assert h + "" == h && h <= h + kind;
    MatchComplete(topic, "", m.0, m.1);
    CharAfterPrefix(h, kind, topic);
  }

  /** The four kinds begin with distinct letters. */
  lemma KindsStartDistinct(i: nat, j: nat)
    requires i < |Kinds| && j < |Kinds| && Kinds[i][0] == Kinds[j][0]
    ensures i == j
  {
  }

  /** The kinds begin with distinct letters, so a topic matches at most one pattern. */
  lemma AtMostOneKind(topic: string, i: nat, j: nat)
    requires i < |Kinds| && j < |Kinds|
    requires MatchTopic(topic, Kinds[i]).Some? && MatchTopic(topic, Kinds[j]).Some?
    ensures i == j
  {
    var ki, kj := Kinds[i], Kinds[j];
    assert |ki| > 0 && |kj| > 0;
    KindCharacter(topic, ki);
    KindCharacter(topic, kj);
    KindsStartDistinct(i, j);
  }

  /** Two matches of one topic, for any kinds, agree on the segments. */
  lemma SameSegments(topic: string, f1: string, d1: string, k1: string, f2: string, d2: string, k2: string)
    requires Matches(topic, k1, f1, d1) && Matches(topic, k2, f2, d2)
    ensures f1 == f2 && d1 == d2
  {
    var h1 := FarmPrefix + f1 + DeviceInfix + d1 + "/";
    var h2 := FarmPrefix + f2 + DeviceInfix + d2 + "/";
    assert h1 <= h1 + k1;
    assert h2 <= h2 + k2;
    assert h1 + "" == h1 && h2 + "" == h2;
    MatchComplete(topic, "", f1, d1);
    MatchComplete(topic, "", f2, d2);
  }

  /** Where on_message sends a topic: the first pattern that matches, or nowhere. */
  datatype Route = StatusRoute(farm: string, device: string) | LogsRoute | EventsRoute | CommandsRoute | Unrouted

  function RouteOf(topic: string): (r: Route)
    ensures r.StatusRoute? <==> MatchTopic(topic, "status").Some?
    ensures r.Unrouted? <==> && MatchTopic(topic, "status").None? && MatchTopic(topic, "logs").None?
                             && MatchTopic(topic, "events").None? && MatchTopic(topic, "commands").None?
  {
    var s := MatchTopic(topic, "status");
    if s.Some? then StatusRoute(s.value.0, s.value.1)
    else if MatchTopic(topic, "logs").Some? then LogsRoute
    else if MatchTopic(topic, "events").Some? then EventsRoute
    else if MatchTopic(topic, "commands").Some? then CommandsRoute
    else Unrouted
  }

  /** Since at most one pattern matches, the order of the tests does not matter: each route is its own pattern's match. */
  lemma RouteIsTheMatchingKind(topic: string)
    ensures RouteOf(topic).LogsRoute? <==> MatchTopic(topic, "logs").Some?
    ensures RouteOf(topic).EventsRoute? <==> MatchTopic(topic, "events").Some?
    ensures RouteOf(topic).CommandsRoute? <==> MatchTopic(topic, "commands").Some?
    ensures RouteOf(topic).StatusRoute? ==>
      Matches(topic, "status", RouteOf(topic).farm, RouteOf(topic).device)
  {
    if MatchTopic(topic, "status").Some? {
      KindCharacter(topic, "status");
      MatchSound(topic, "status");
    }
    if MatchTopic(topic, "logs").Some? {
      KindCharacter(topic, "logs");
    }
    if MatchTopic(topic, "events").Some? {
      KindCharacter(topic, "events");
    }
    if MatchTopic(topic, "commands").Some? {
      KindCharacter(topic, "commands");
    }
  }
}
