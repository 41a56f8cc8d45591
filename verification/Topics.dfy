/** Device topics: what the broker lets a device publish, and what the engine makes of
    a topic. */
module Topics {
  import opened Wrappers

  const MAX_TOPIC := 512
  const ID_LENGTH := 22

  datatype Owner = DeviceOwned | ServerOwned

  /** The interfaces a device declares; `None` where the realm has no such interface. */
  type Declared = map<string, Option<Owner>>

  ghost predicate SlashFree(s: string) {
    forall i :: 0 <= i < |s| ==> s[i] != '/'
  }

  ghost predicate PlainNames(intro: Declared) {
    forall n :: n in intro ==> SlashFree(n)
  }

  /** The first position of a slash, or the length. */
  function Slash(s: string): (i: nat)
    ensures i <= |s| && (i < |s| ==> s[i] == '/')
    ensures forall k :: 0 <= k < i ==> s[k] != '/'
  {
    if s == "" || s[0] == '/' then 0 else
      var i := Slash(s[1..]);
      assert forall k :: 0 < k < i + 1 ==> s[k] == s[1..][k - 1];
      i + 1
  }

  function Base(realm: string, id: string): string {
    realm + "/" + id
  }

  /** The publish side of the access rules. */
  predicate CheckPublish(base: string, topic: string, intro: Declared) {
    if topic == "" || |topic| > MAX_TOPIC then false
    else if topic == base then true
    else if !(base + "/" <= topic) then false
    else
      var rest := topic[|base| + 1..];
      if rest == "capabilities" || rest == "control/emptyCache" || rest == "control/producer/properties" then true
      else
        var i := Slash(rest);
        if i == |rest| || rest[i + 1..] == "" then false
        else rest[..i] in intro && intro[rest[..i]] == Some(DeviceOwned)
  }

  /** What follows the device's root in a topic, if it has that root. */
  function SplitDeviceTopic(topic: string, realm: string, id: string): Option<string>
    requires |id| == ID_LENGTH
  {
    var root := |realm| + 1 + ID_LENGTH;
    if |topic| < root || topic[..|realm|] != realm || topic[|realm|] != '/' || topic[|realm| + 1..root] != id then None
    else if |topic| == root then Some("")
    else if topic[root] != '/' then None
    else Some(topic[root + 1..])
  }

  datatype Kind = Introspection | Capabilities | Control(subpath: string) | Data

  function Classify(rest: string): Kind {
    if rest == "" then Introspection
    else if rest == "capabilities" then Capabilities
    else if rest == "control" then Control("")
    else if "control/" <= rest then Control(rest[|"control/"|..])
    else Data
  }

  /** A place where a topic can be cut into interface and path. */
  ghost predicate Boundary(rest: string, end: nat) {
    end <= |rest| && (end == |rest| || rest[end] == '/')
  }

  /** The last position of a slash before `end`, or -1. */
  function LastSlash(s: string, end: nat): (i: int)
    requires end <= |s|
    ensures -1 <= i < end && (i >= 0 ==> s[i] == '/')
    ensures forall k :: i < k < end ==> s[k] != '/'
  {
    if end == 0 then -1 else if s[end - 1] == '/' then end - 1 else LastSlash(s, end - 1)
  }

  /** The loop that shortens the candidate name to the next slash: it finds the longest
      declared prefix that ends at a boundary. */
  method MatchInterface(rest: string, intro: Declared) returns (r: Option<(string, string)>)
    ensures r.None? ==> forall e: nat :: Boundary(rest, e) ==> rest[..e] !in intro
    ensures r.Some? ==> r.value.0 in intro && rest == r.value.0 + r.value.1 && Boundary(rest, |r.value.0|)
    ensures r.Some? ==> forall e: nat :: |r.value.0| < e && Boundary(rest, e) ==> rest[..e] !in intro
  {
    var end: int := |rest|;
    while true
      invariant 0 <= end <= |rest| && Boundary(rest, end)
      invariant forall e: nat :: end < e && Boundary(rest, e) ==> rest[..e] !in intro
      decreases end
    {
      if rest[..end] in intro {
        return Some((rest[..end], rest[end..]));
      }
      var i := LastSlash(rest, end);
      if i < 0 {
        return None;
      }
      end := i;
    }
  }

  /** What the engine resolves a data topic to. */
  ghost predicate ResolvesTo(rest: string, intro: Declared, name: string, path: string) {
    && name in intro && rest == name + path && Boundary(rest, |name|)
    && forall e: nat :: |name| < e && Boundary(rest, e) ==> rest[..e] !in intro
  }

  /** With slash-free names the longest match is the first segment. */
  lemma {:induction false} FirstSegmentWins(rest: string, intro: Declared, name: string, path: string)
    requires PlainNames(intro)
    ensures ResolvesTo(rest, intro, name, path) <==>
        name in intro && name == rest[..Slash(rest)] && path == rest[Slash(rest)..]
  {
    var i := Slash(rest);
    assert rest == rest[..i] + rest[i..];
    if ResolvesTo(rest, intro, name, path) {
      assert rest[..|name|] == name;
      SegmentIs(rest, |name|);
    }
    if name in intro && name == rest[..i] && path == rest[i..] {
      forall e: nat | |name| < e && Boundary(rest, e) ensures rest[..e] !in intro {
        assert rest[..e][i] == '/';
      }
    }
  }

  lemma {:induction false} SegmentIs(rest: string, n: nat)
    requires Boundary(rest, n) && SlashFree(rest[..n])
    ensures Slash(rest) == n
  {
    assert forall k :: 0 <= k < n ==> rest[..n][k] == rest[k];
  }

  lemma {:induction false} SplitIsPrefix(topic: string, realm: string, id: string)
    requires |id| == ID_LENGTH
    ensures var r := SplitDeviceTopic(topic, realm, id);
            && (topic == Base(realm, id) ==> r == Some(""))
            && (Base(realm, id) + "/" <= topic ==> r == Some(topic[|Base(realm, id)| + 1..]))
            && (r.Some? && r.value != "" ==>
                Base(realm, id) + "/" <= topic && r.value == topic[|Base(realm, id)| + 1..])
  {
    var base, root := Base(realm, id), |realm| + 1 + ID_LENGTH;
    assert |base| == root && base[..|realm|] == realm && base[|realm|] == '/' && base[|realm| + 1..] == id;
    if Base(realm, id) + "/" <= topic {
      assert topic[..root + 1] == base + "/";
      assert topic[..root] == base && topic[root] == '/';
      assert topic[..|realm|] == base[..|realm|] && topic[|realm|] == base[|realm|] &&
          topic[|realm| + 1..root] == base[|realm| + 1..];
    }
    var r := SplitDeviceTopic(topic, realm, id);
    if r.Some? && r.value != "" {
      assert topic[..root] == topic[..|realm|] + [topic[|realm|]] + topic[|realm| + 1..root] == base;
      assert topic[..root + 1] == base + "/";
    }
  }

  /** The two sides agree. A device publish the broker allows as data is split,
      classified as data and resolved to the same device-owned interface; and a topic the
      engine would resolve to a device-owned interface is allowed exactly when it is
      within the length cap and its path is more than a bare slash. */
  lemma {:induction false} BrokerAndEngineAgree(
    realm: string, id: string, topic: string, intro: Declared, name: string, path: string)
    requires |id| == ID_LENGTH && PlainNames(intro)
    ensures var rest := SplitDeviceTopic(topic, realm, id);
            rest.Some? && Classify(rest.value) == Data && ResolvesTo(rest.value, intro, name, path) &&
                intro[name] == Some(DeviceOwned) ==>
              (CheckPublish(Base(realm, id), topic, intro) <==> |topic| <= MAX_TOPIC && |path| >= 2)
  {
    var rest := SplitDeviceTopic(topic, realm, id);
    if rest.Some? && Classify(rest.value) == Data && ResolvesTo(rest.value, intro, name, path) {
      SplitIsPrefix(topic, realm, id);
      FirstSegmentWins(rest.value, intro, name, path);
      NotSpecial(rest.value);
      assert topic != Base(realm, id);
    }
  }

  lemma {:induction false} NotSpecial(rest: string)
    requires Classify(rest) == Data
    ensures rest != "capabilities" && rest != "control/emptyCache" && rest != "control/producer/properties"
  {
    assert "control/emptyCache"[..8] == "control/" && "control/producer/properties"[..8] == "control/";
  }

  /** The two control messages a device may send; an interface called "control" would
      let through more under its name, and the engine takes those as control too. */
  ghost predicate AllowedControl(rest: string, intro: Declared) {
    || rest == "control/emptyCache" || rest == "control/producer/properties"
    || ("control" in intro && intro["control"] == Some(DeviceOwned))
  }

  /** Nothing but introspection, capabilities, control messages and data on a declared
      device-owned interface gets through. */
  lemma {:induction false} AllowedIsResolved(realm: string, id: string, topic: string, intro: Declared)
    requires |id| == ID_LENGTH && PlainNames(intro) && CheckPublish(Base(realm, id), topic, intro)
    ensures var rest := SplitDeviceTopic(topic, realm, id);
            && rest.Some?
            && (topic == Base(realm, id) <==> Classify(rest.value) == Introspection)
            && (Classify(rest.value).Control? ==> AllowedControl(rest.value, intro))
            && (Classify(rest.value) == Data ==>
                  var i := Slash(rest.value);
                  ResolvesTo(rest.value, intro, rest.value[..i], rest.value[i..]) &&
                      intro[rest.value[..i]] == Some(DeviceOwned))
  {
    SplitIsPrefix(topic, realm, id);
    var rest := SplitDeviceTopic(topic, realm, id);
    if Classify(rest.value) == Data {
      NotSpecial(rest.value);
      var i := Slash(rest.value);
      FirstSegmentWins(rest.value, intro, rest.value[..i], rest.value[i..]);
    } else if Classify(rest.value).Control? {
      ControlSegment(rest.value);
    }
  }

  lemma {:induction false} ControlSegment(rest: string)
    requires Classify(rest).Control?
    ensures rest != "capabilities" && rest[..Slash(rest)] == "control"
  {
    var c := "control";
    if rest == c {
      assert rest[..7] == c;
      SegmentIs(rest, 7);
    } else {
      assert rest[..8] == "control/" && rest[7] == "control/"[7] && rest[..7] == "control/"[..7] == c;
      SegmentIs(rest, 7);
    }
  }

  /** A topic under a declared device-owned interface: its name, a slash, and a path
      that is not empty. */
  ghost predicate DataTopic(base: string, topic: string, intro: Declared, name: string, path: string) {
    topic == base + "/" + name + "/" + path && SlashFree(name) && path != "" &&
    name in intro && intro[name] == Some(DeviceOwned)
  }

  /** What a device may publish to: within 512 bytes, its root, its capabilities, the two
      control topics, and paths under its declared device-owned interfaces. Nothing else. */
  lemma {:induction false} PublishIff(base: string, topic: string, intro: Declared)
    ensures CheckPublish(base, topic, intro) <==>
            1 <= |topic| <= 512 &&
            (|| topic == base || topic == base + "/" + "capabilities" || topic == base + "/" + "control/emptyCache"
             || topic == base + "/" + "control/producer/properties"
             || exists name, path :: DataTopic(base, topic, intro, name, path))
  {
    hide Slash, DataTopic;
    UnderIff(base, topic, "capabilities");
    UnderIff(base, topic, "control/emptyCache");
    UnderIff(base, topic, "control/producer/properties");
    DataTopicIff(base, topic, intro);
  }

  lemma {:induction false} UnderIff(base: string, topic: string, rest: string)
    ensures topic == base + "/" + rest <==> base + "/" <= topic && topic[|base| + 1..] == rest
  {
    if topic == base + "/" + rest {
      TailIs(base, rest, topic);
    }
    if base + "/" <= topic {
      assert topic == base + "/" + topic[|base| + 1..];
    }
  }

  /** Cutting at the first slash finds the name of a data topic. */
  lemma {:induction false} DataTopicIff(base: string, topic: string, intro: Declared)
    ensures (exists name, path :: DataTopic(base, topic, intro, name, path)) <==>
            base + "/" <= topic &&
            var rest := topic[|base| + 1..];
            var i := Slash(rest);
            i < |rest| && rest[i + 1..] != "" && rest[..i] in intro && intro[rest[..i]] == Some(DeviceOwned)
  {
    forall name, path | DataTopic(base, topic, intro, name, path)
      ensures base + "/" <= topic
      ensures var rest := topic[|base| + 1..];
              Slash(rest) < |rest| && rest[..Slash(rest)] == name && rest[Slash(rest) + 1..] == path
    {
      assert topic == base + "/" + (name + "/" + path);
      TailIs(base, name + "/" + path, topic);
      CutName(name, path);
    }
    if base + "/" <= topic {
      var rest := topic[|base| + 1..];
      var i := Slash(rest);
      if i < |rest| && rest[i + 1..] != "" && rest[..i] in intro && intro[rest[..i]] == Some(DeviceOwned) {
        assert rest == rest[..i] + "/" + rest[i + 1..];
        assert topic == base + "/" + rest[..i] + "/" + rest[i + 1..];
        assert DataTopic(base, topic, intro, rest[..i], rest[i + 1..]);
      }
    }
  }

  lemma {:induction false} CutName(name: string, path: string)
    requires SlashFree(name)
    ensures var rest := name + "/" + path;
            Slash(rest) == |name| && rest[..|name|] == name && rest[|name| + 1..] == path
  {
    var rest := name + "/" + path;
    assert rest[|name|] == '/' && rest[..|name|] == name;
    SegmentIs(rest, |name|);
  }

  lemma {:induction false} TailIs(base: string, rest: string, topic: string)
    requires topic == base + "/" + rest
    ensures base + "/" <= topic && topic[|base| + 1..] == rest
  {
    assert topic[..|base| + 1] == base + "/";
  }

  /** What the engine takes those topics for. */
  lemma {:induction false} SpecialTopics(realm: string, id: string)
    requires |id| == ID_LENGTH
    ensures SplitDeviceTopic(Base(realm, id), realm, id) == Some("") && Classify("") == Introspection
    ensures Classify("capabilities") == Capabilities
    ensures Classify("control/emptyCache") == Control("emptyCache")
    ensures Classify("control/producer/properties") == Control("producer/properties")
  {
    SplitIsPrefix(Base(realm, id), realm, id);
    ControlSubpath("emptyCache");
    ControlSubpath("producer/properties");
    assert "control/" + "emptyCache" == "control/emptyCache";
    assert "control/" + "producer/properties" == "control/producer/properties";
  }

  /** Everything under a device's root is split off unchanged. */
  lemma {:induction false} UnderBase(realm: string, id: string, rest: string)
    requires |id| == ID_LENGTH
    ensures SplitDeviceTopic(Base(realm, id) + "/" + rest, realm, id) == Some(rest)
  {
    var topic := Base(realm, id) + "/" + rest;
    TailIs(Base(realm, id), rest, topic);
    SplitIsPrefix(topic, realm, id);
  }

  lemma {:induction false} ControlSubpath(sub: string)
    ensures Classify("control/" + sub) == Control(sub)
  {
    var rest := "control/" + sub;
    assert rest[..8] == "control/" && rest[8..] == sub && rest[7] == '/';
    assert "capabilities"[7] == 'i';
  }

  /** A trailing slash: the engine would take it as a path, the broker refuses it. */
  lemma {:induction false} BareSlashIsRefused(realm: string, id: string, name: string)
    requires |id| == ID_LENGTH && SlashFree(name) && name != "" && name != "control"
    ensures var topic, intro := Base(realm, id) + "/" + name + "/", map[name := Some(DeviceOwned)];
            && SplitDeviceTopic(topic, realm, id) == Some(name + "/") && Classify(name + "/") == Data
            && ResolvesTo(name + "/", intro, name, "/") && !CheckPublish(Base(realm, id), topic, intro)
  {
    var topic, intro: Declared := Base(realm, id) + "/" + name + "/", map[name := Some(DeviceOwned)];
    var rest := name + "/";
    assert topic == Base(realm, id) + "/" + rest;
    assert topic[..|Base(realm, id)| + 1] == Base(realm, id) + "/" && topic[|Base(realm, id)| + 1..] == rest;
    SplitIsPrefix(topic, realm, id);
    assert rest[..|name|] == name && rest[|name|] == '/';
    SegmentIs(rest, |name|);
    NotControl(name);
    FirstSegmentWins(rest, intro, name, "/");
    BrokerAndEngineAgree(realm, id, topic, intro, name, "/");
  }

  lemma {:induction false} NotControl(name: string)
    requires SlashFree(name) && name != "" && name != "control"
    ensures Classify(name + "/") == Data
  {
    var rest := name + "/";
    assert rest[|name|] == '/' && rest[..|name|] == name;
    assert "capabilities"[|"capabilities"| - 1] == 's' && "control"[|"control"| - 1] == 'l';
    assert rest[|rest| - 1] == '/';
    if |name| > 7 {
      assert rest[7] == name[7] && "control/"[7] == '/';
    } else if |name| == 7 {
      assert rest[..7] == name && "control/"[..7] == "control";
    }
  }
}
