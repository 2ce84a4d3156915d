/**
 * MQTT topics: what a device's access list allows (MqttAuthController), what the gateway subscribes
 * to and how it routes (MqttService). Filters follow section 4.7.1 of MQTT Version 3.1.1.
 */
module MqttTopics {
  import opened Text

  datatype Channel = Coordinates | Status | Alert | Image | Video | StreamStatus

  function Path(a: string, b: string, c: string): string {
    a + ['/'] + b + ['/'] + c
  }

  /** What follows the device id in the topic. */
  function Suffix(c: Channel): seq<string> {
    match c
    case Coordinates => ["coordinates"]
    case Status => ["status"]
    case Alert => ["alert"]
    case Image => ["image"]
    case Video => ["video"]
    case StreamStatus => ["stream", "status"]
  }

  function SuffixText(c: Channel): string {
    if |Suffix(c)| == 1 then Suffix(c)[0] else Suffix(c)[0] + ['/'] + Suffix(c)[1]
  }

  function PublishTopic(device: string, c: Channel): string {
    Path("gnss", device, SuffixText(c))
  }

  function CommandFilter(device: string): string {
    Path("gnss", device, "command") + ['/'] + "#"
  }

  function CommandTopic(device: string, command: string): string {
    Path("gnss", device, "command") + ['/'] + command
  }

  /** The gateway's subscriptions: one level wildcard in place of the device id. */
  function Subscription(c: Channel): string {
    Path("gnss", "+", SuffixText(c))
  }

  datatype Action = Publish | Subscribe

  datatype AclRule = AclRule(action: Action, topic: string)

  function BuildDeviceAcl(device: string): seq<AclRule> {
    [AclRule(Publish, PublishTopic(device, Coordinates)),
     AclRule(Publish, PublishTopic(device, Status)),
     AclRule(Publish, PublishTopic(device, Alert)),
     AclRule(Publish, PublishTopic(device, Image)),
     AclRule(Publish, PublishTopic(device, Video)),
     AclRule(Publish, PublishTopic(device, StreamStatus)),
     AclRule(Subscribe, CommandFilter(device))]
  }

  /** A level of the filter equals the topic's level, '+' stands for any one, a last '#' for all that follow, or none. */
  predicate LevelsMatch(filter: seq<string>, topic: seq<string>) {
    if filter == ["#"] then true
    else if filter == [] || topic == [] then filter == topic
    else (filter[0] == "+" || filter[0] == topic[0]) && LevelsMatch(filter[1..], topic[1..])
  }

  predicate Matches(filter: string, topic: string) {
    LevelsMatch(Split(filter, '/'), Split(topic, '/'))
  }

  datatype Route = To(channel: Channel, device: string) | Ignored

  /** MqttService.handleMessage: segments 1, 2 and 3 decide; surplus segments do not. */
  function RouteOf(topic: string): Route {
    var segments := Split(topic, '/');
    if |segments| < 3 then Ignored
    else if segments[2] == "coordinates" then To(Coordinates, segments[1])
    else if segments[2] == "alert" then To(Alert, segments[1])
    else if segments[2] == "status" then To(Status, segments[1])
    else if segments[2] == "image" then To(Image, segments[1])
    else if segments[2] == "video" then To(Video, segments[1])
    else if segments[2] == "stream" && |segments| > 3 && segments[3] == "status" then To(StreamStatus, segments[1])
    else Ignored
  }

  /** Ids such as UUIDs, without a separator or a wildcard. */
  predicate PlainId(device: string) {
    device != "" && '/' !in device && '+' !in device && '#' !in device
  }

  /** The topics the access list lets a device use in that way. */
  ghost predicate Allowed(device: string, action: Action, topic: string) {
    exists r :: r in BuildDeviceAcl(device) && r.action == action && Matches(r.topic, topic)
  }

  lemma PathLevels(device: string, c: Channel)
    requires '/' !in device
    ensures Split(PublishTopic(device, c), '/') == ["gnss", device] + Suffix(c)
  {
    if c == StreamStatus {
      assert PublishTopic(device, c) == "gnss" + ['/'] + device + ['/'] + "stream" + ['/'] + "status";
      SplitFour("gnss", device, "stream", "status", '/');
    } else {
      SplitThree("gnss", device, Suffix(c)[0], '/');
    }
  }

  lemma CommandLevels(device: string, last: string)
    requires '/' !in device && '/' !in last
    ensures Split(Path("gnss", device, "command") + ['/'] + last, '/') == ["gnss", device, "command", last]
  {
    SplitFour("gnss", device, "command", last, '/');
  }

  lemma SuffixesDiffer(a: Channel, b: Channel)
    ensures Suffix(a) == Suffix(b) ==> a == b
  {
    assert |"coordinates"| == 11 && |"status"| == 6 && |"alert"| == 5 && |"image"| == 5 && |"video"| == 5;
    assert "alert"[0] == 'a' && "image"[0] == 'i' && "video"[0] == 'v';
  }

  predicate NoWildcards(levels: seq<string>) {
    forall i :: 0 <= i < |levels| ==> levels[i] != "+" && levels[i] != "#"
  }

  lemma {:induction false} PlainFilterIsEquality(filter: seq<string>, topic: seq<string>)
    requires NoWildcards(filter)
    ensures LevelsMatch(filter, topic) <==> filter == topic
  {
    assert filter != [] ==> filter[0] != "#";
    if filter != [] && topic != [] {
      PlainFilterIsEquality(filter[1..], topic[1..]);
      assert filter == [filter[0]] + filter[1..] && topic == [topic[0]] + topic[1..];
    }
  }

  lemma SuffixIsPlain(c: Channel)
    ensures NoWildcards(Suffix(c))
  {
    assert |"+"| == 1 && |"#"| == 1;
  }

  lemma PlainLevels(device: string, c: Channel)
    requires PlainId(device)
    ensures NoWildcards(["gnss", device] + Suffix(c))
  {
    SuffixIsPlain(c);
    assert "+"[0] == '+' && "#"[0] == '#' && |"gnss"| == 4;
    var levels := ["gnss", device] + Suffix(c);
    forall i | 0 <= i < |levels| ensures levels[i] != "+" && levels[i] != "#" {
      if i == 1 {
        assert device == "+" ==> '+' in device;
        assert device == "#" ==> '#' in device;
      }
    }
  }

  /** Matching two leading levels, the second of which may be '+', and then the rest. */
  lemma TwoLevels(a: string, b: string, rest: seq<string>, topic: seq<string>)
    requires a != "+" && a != "#" && b != "#"
    ensures LevelsMatch([a, b] + rest, topic)
       <==> |topic| >= 2 && topic[0] == a && (b == "+" || topic[1] == b) && LevelsMatch(rest, topic[2..])
  {
    var filter := [a, b] + rest;
    assert filter[0] == a && filter[1..] == [b] + rest && filter[1..][1..] == rest;
    assert filter != ["#"] && filter[1..] != ["#"] by {
      assert filter[1..][0] == b;
    }
    if |topic| >= 2 {
      assert topic[1..][0] == topic[1] && topic[1..][1..] == topic[2..];
    }
  }

  lemma GnssIsPlain()
    ensures "gnss" != "+" && "gnss" != "#" && "+" != "#"
  {
    assert |"gnss"| == 4 && "+"[0] == '+' && "#"[0] == '#';
  }

  /** A subscription receives exactly the topics gnss/<one level>/<its suffix>. */
  lemma SubscriptionLevels(c: Channel, topic: string)
    ensures Matches(Subscription(c), topic)
       <==> |Split(topic, '/')| >= 2 && Split(topic, '/')[0] == "gnss" && Split(topic, '/')[2..] == Suffix(c)
  {
    PathLevels("+", c);
    SuffixIsPlain(c);
    GnssIsPlain();
    var levels := Split(topic, '/');
    TwoLevels("gnss", "+", Suffix(c), levels);
    if |levels| >= 2 {
      PlainFilterIsEquality(Suffix(c), levels[2..]);
    }
  }

  /** Each topic a device publishes on reaches the gateway through exactly the one subscription meant for it. */
  lemma ExactlyOneSubscription(device: string, c: Channel, d: Channel)
    requires PlainId(device)
    ensures Matches(Subscription(d), PublishTopic(device, c)) <==> c == d
  {
    PathLevels(device, c);
    SubscriptionLevels(d, PublishTopic(device, c));
    SuffixesDiffer(c, d);
    assert (["gnss", device] + Suffix(c))[2..] == Suffix(c);
  }

  function RuleIndex(c: Channel): nat {
    match c
    case Coordinates => 0
    case Status => 1
    case Alert => 2
    case Image => 3
    case Video => 4
    case StreamStatus => 5
  }

  function ChannelAt(i: nat): Channel
    requires i < 6
  {
    [Coordinates, Status, Alert, Image, Video, StreamStatus][i]
  }

  lemma AclRuleAt(device: string, i: nat)
    requires i < 6
    ensures BuildDeviceAcl(device)[i] == AclRule(Publish, PublishTopic(device, ChannelAt(i)))
  {
  }

  /** The six publish rules are the six channels' topics. */
  lemma AclPublishes(device: string, r: AclRule)
    requires r.action == Publish
    ensures r in BuildDeviceAcl(device) <==> exists c :: r.topic == PublishTopic(device, c)
  {
    var acl := BuildDeviceAcl(device);
    if r in acl {
      var i :| 0 <= i < |acl| && acl[i] == r;
      AclRuleAt(device, i);
    }
    if c :| r.topic == PublishTopic(device, c) {
      AclRuleAt(device, RuleIndex(c));
      assert acl[RuleIndex(c)] == r;
    }
  }

  lemma AclSubscribes(device: string)
    ensures forall r :: r in BuildDeviceAcl(device) && r.action == Subscribe <==> r == AclRule(Subscribe, CommandFilter(device))
  {
    var acl := BuildDeviceAcl(device);
    assert acl[6] == AclRule(Subscribe, CommandFilter(device));
  }

  lemma PublishTopicMatches(device: string, c: Channel, topic: string)
    requires PlainId(device)
    ensures Matches(PublishTopic(device, c), topic) <==> Split(topic, '/') == ["gnss", device] + Suffix(c)
  {
    PathLevels(device, c);
    PlainLevels(device, c);
    PlainFilterIsEquality(["gnss", device] + Suffix(c), Split(topic, '/'));
  }

  /** The access list allows publishing on those six topics and no others. */
  lemma AllowedTopics(device: string, topic: string)
    requires PlainId(device)
    ensures Allowed(device, Publish, topic) <==> exists c :: Split(topic, '/') == ["gnss", device] + Suffix(c)
  {
    if c :| Split(topic, '/') == ["gnss", device] + Suffix(c) {
      PublishTopicMatches(device, c, topic);
      AclPublishes(device, AclRule(Publish, PublishTopic(device, c)));
    }
    if Allowed(device, Publish, topic) {
      var r :| r in BuildDeviceAcl(device) && r.action == Publish && Matches(r.topic, topic);
      AclPublishes(device, r);
      var c :| r.topic == PublishTopic(device, c);
      PublishTopicMatches(device, c, topic);
    }
  }

  /** For every topic: it is routed to a channel exactly when what follows the second level begins with its suffix. */
  lemma RoutedExactly(topic: string, c: Channel, device: string)
    ensures RouteOf(topic) == To(c, device)
       <==> var levels := Split(topic, '/');
            |levels| >= 2 + |Suffix(c)| && levels[1] == device && levels[2..2 + |Suffix(c)|] == Suffix(c)
  {
    var levels := Split(topic, '/');
    LevelNamesDiffer();
    if |levels| >= 2 + |Suffix(c)| {
      assert levels[2..2 + |Suffix(c)|][0] == levels[2];
      assert |Suffix(c)| == 1 ==> levels[2..3] == [levels[2]];
      assert c == StreamStatus ==> levels[2..4] == [levels[2], levels[3]];
    }
  }

  lemma LevelNamesDiffer()
    ensures "coordinates" != "status" && "coordinates" != "alert" && "coordinates" != "image" && "coordinates" != "video"
    ensures "status" != "alert" && "status" != "image" && "status" != "video" && "alert" != "image" && "alert" != "video"
    ensures "image" != "video" && "stream" != "coordinates" && "stream" != "status" && "stream" != "alert"
    ensures "stream" != "image" && "stream" != "video"
  {
    assert |"coordinates"| == 11 && |"status"| == 6 && |"alert"| == 5 && |"image"| == 5 && |"video"| == 5 && |"stream"| == 6;
    assert "alert"[0] == 'a' && "image"[0] == 'i' && "video"[0] == 'v' && "status"[2] == 'a' && "stream"[2] == 'r';
  }

  /** The topic of a channel as the device writes it. */
  function TopicText(device: string, c: Channel): string {
    "gnss/" + device + match c
                       case Coordinates => "/coordinates"
                       case Status => "/status"
                       case Alert => "/alert"
                       case Image => "/image"
                       case Video => "/video"
                       case StreamStatus => "/stream/status"
  }

  lemma TopicsAsWritten(device: string, c: Channel)
    ensures PublishTopic(device, c) == TopicText(device, c) && Subscription(c) == TopicText("+", c)
  {
    assert "gnss" + ['/'] == "gnss/";
    match c
    case StreamStatus => assert ['/'] + ("stream" + ['/'] + "status") == "/stream/status";
    case Coordinates => assert ['/'] + "coordinates" == "/coordinates";
    case Status => assert ['/'] + "status" == "/status";
    case Alert => assert ['/'] + "alert" == "/alert";
    case Image => assert ['/'] + "image" == "/image";
    case Video => assert ['/'] + "video" == "/video";
  }

  /** Letter by letter: what a device may publish on, and which handler gets it. */
  lemma AllowedTopicTexts(device: string, topic: string)
    requires PlainId(device)
    ensures Allowed(device, Publish, topic) <==> exists c :: topic == TopicText(device, c)
    ensures forall c :: RouteOf(TopicText(device, c)) == To(c, device)
  {
    AllowedTopics(device, topic);
    forall c ensures Split(topic, '/') == ["gnss", device] + Suffix(c) <==> topic == TopicText(device, c)
             ensures RouteOf(TopicText(device, c)) == To(c, device)
    {
      TopicsAsWritten(device, c);
      PathLevels(device, c);
      JoinSplit(topic, '/');
      JoinSplit(TopicText(device, c), '/');
      RouteOfSuffix(device, c, TopicText(device, c));
    }
  }

  /** Whatever a device may publish is handled as its own data, by the handler of its channel. */
  lemma AllowedTopicsRouteToTheirDevice(device: string, topic: string)
    requires PlainId(device) && Allowed(device, Publish, topic)
    ensures exists c :: Matches(Subscription(c), topic) && RouteOf(topic) == To(c, device)
  {
    AllowedTopics(device, topic);
    var c :| Split(topic, '/') == ["gnss", device] + Suffix(c);
    SubscriptionLevels(c, topic);
    assert (["gnss", device] + Suffix(c))[2..] == Suffix(c);
    RouteOfSuffix(device, c, topic);
  }

  lemma RouteOfSuffix(device: string, c: Channel, topic: string)
    requires Split(topic, '/') == ["gnss", device] + Suffix(c)
    ensures RouteOf(topic) == To(c, device)
  {
    assert |"coordinates"| == 11 && |"status"| == 6 && |"alert"| == 5 && |"image"| == 5 && |"video"| == 5 && |"stream"| == 6;
    assert "alert"[0] == 'a' && "image"[0] == 'i' && "video"[0] == 'v' && "status"[1] == 't' && "stream"[2] == 'r' && "status"[2] == 'a';
  }

  /** No topic is open to two devices, for publishing or for receiving commands. */
  lemma DevicesAreIsolated(a: string, b: string, topic: string)
    requires PlainId(a) && PlainId(b) && a != b
    ensures !(Allowed(a, Publish, topic) && Allowed(b, Publish, topic))
    ensures !(Allowed(a, Subscribe, topic) && Allowed(b, Subscribe, topic))
  {
    if Allowed(a, Publish, topic) {
      OnlyOwnTopics(a, topic);
    }
    if Allowed(b, Publish, topic) {
      OnlyOwnTopics(b, topic);
    }
    if Allowed(a, Subscribe, topic) && Allowed(b, Subscribe, topic) {
      AllowedCommands(a, topic);
      AllowedCommands(b, topic);
    }
  }

  lemma OnlyOwnTopics(device: string, topic: string)
    requires PlainId(device) && Allowed(device, Publish, topic)
    ensures |Split(topic, '/')| >= 2 && Split(topic, '/')[1] == device
  {
    AllowedTopics(device, topic);
    var c :| Split(topic, '/') == ["gnss", device] + Suffix(c);
  }

  /** The command filter covers exactly the topics at or below the device's own command level. */
  lemma AllowedCommands(device: string, topic: string)
    requires PlainId(device)
    ensures Allowed(device, Subscribe, topic)
       <==> |Split(topic, '/')| >= 3 && Split(topic, '/')[..3] == ["gnss", device, "command"]
  {
    CommandLevels(device, "#");
    AclSubscribes(device);
    GnssIsPlain();
    var levels := Split(topic, '/');
    assert Allowed(device, Subscribe, topic) <==> Matches(CommandFilter(device), topic) by {
      assert AclRule(Subscribe, CommandFilter(device)) in BuildDeviceAcl(device);
    }
    assert ["gnss", device, "command", "#"] == ["gnss", device] + ["command", "#"];
    assert device != "+" && device != "#" by {
      assert device == "+" ==> '+' in device;
      assert device == "#" ==> '#' in device;
    }
    TwoLevels("gnss", device, ["command", "#"], levels);
    assert |"command"| == 7 && ["command", "#"][1..] == ["#"];
    if |levels| >= 3 {
      assert levels[2..][0] == levels[2] && levels[..3] == [levels[0], levels[1], levels[2]];
    } else if |levels| == 2 {
      assert levels[2..] == [];
    }
  }

  /** The start and stop commands reach the device they are meant for, no other, and not the gateway itself. */
  lemma CommandsReachTheirDevice(device: string, other: string, command: string, c: Channel)
    requires PlainId(device) && PlainId(other) && command in ["start_stream", "stop_stream"]
    ensures Allowed(other, Subscribe, CommandTopic(device, command)) <==> other == device
    ensures !Matches(Subscription(c), CommandTopic(device, command))
  {
    assert '/' !in "start_stream" && '/' !in "stop_stream";
    CommandLevels(device, command);
    AllowedCommands(other, CommandTopic(device, command));
    SubscriptionLevels(c, CommandTopic(device, command));
    var levels := ["gnss", device, "command", command];
    assert levels[..3] == ["gnss", device, "command"] && levels[2..] == ["command", command];
    assert |"stream"| == 6 && |"command"| == 7;
    assert c == StreamStatus ==> Suffix(c)[0] != "command";
  }
}
