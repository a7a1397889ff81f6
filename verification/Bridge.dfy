/** The BACnet2MQTT bridge: topics, payloads and the handling of one message. */
module Bridge {

  import opened Wrappers
  import opened Points
  import opened Strings
  import opened Json
  import U = Updates
  import Registry

  datatype Message = Message(topic: string, payload: Payload)

  // ---------- topics ----------

  const SET_SUFFIX := "/set"

  function Base(configured: string): string {
    StripRight(configured, '/')
  }

  function ParseSetTopic(configured: string, topic: string): Option<string> {
    var prefix := Base(configured) + "/";
    if !(prefix <= topic) || !EndsWith(topic, SET_SUFFIX) then None
    else
      // An empty slice when prefix and suffix overlap.
      var end := |topic| - |SET_SUFFIX|;
      var middle := if |prefix| <= end then topic[|prefix|..end] else "";
      if middle == "" || '/' in middle || middle == "bridge" then None else Some(middle)
  }

  /** Names that can be set at all. */
  predicate Settable(n: string) {
    n != "" && '/' !in n && n != "bridge"
  }

  function StateTopic(configured: string, n: string): string {
    Base(configured) + "/" + n
  }

  function SetTopic(configured: string, n: string): string {
    StateTopic(configured, n) + SET_SUFFIX
  }

  const BRIDGE_TOPICS := ["bridge/state", "bridge/info", "bridge/devices"]

  lemma ParsedIsPrinted(configured: string, topic: string)
    ensures var n := ParseSetTopic(configured, topic);
            n.Some? ==> topic == SetTopic(configured, n.value) && Settable(n.value)
  {
    var prefix, end := Base(configured) + "/", |topic| - |SET_SUFFIX|;
    if ParseSetTopic(configured, topic).Some? {
      var n := topic[|prefix|..end];
      assert topic[..|prefix|] == prefix && topic[end..] == SET_SUFFIX;
      assert topic == prefix + n + SET_SUFFIX;
    }
  }

  lemma PrintedIsParsed(configured: string, n: string)
    ensures Settable(n) ==> ParseSetTopic(configured, SetTopic(configured, n)) == Some(n)
    ensures !Settable(n) ==> ParseSetTopic(configured, SetTopic(configured, n)) == None
  {
    var prefix := Base(configured) + "/";
    assert SetTopic(configured, n) == prefix + n + SET_SUFFIX;
  }

  /** Parsing is the exact inverse of printing a set topic for a settable name. */
  lemma ParseIsInverse(configured: string, topic: string, n: string)
    ensures ParseSetTopic(configured, topic) == Some(n) <==> topic == SetTopic(configured, n) && Settable(n)
  {
    ParsedIsPrinted(configured, topic);
    PrintedIsParsed(configured, n);
  }

  /** The bridge hears its own state messages, since it subscribes to everything under its base. Such a
      topic reads as a set command for `m` exactly when the point is called "m/set". */
  lemma OwnTopicIff(configured: string, name: string, m: string)
    ensures ParseSetTopic(configured, StateTopic(configured, name)) == Some(m)
            <==> Settable(m) && name == m + SET_SUFFIX
  {
    ParseIsInverse(configured, StateTopic(configured, name), m);
    var prefix := Base(configured) + "/";
    assert SetTopic(configured, m) == prefix + (m + SET_SUFFIX);
    assert (prefix + name)[|prefix|..] == name;
    assert (prefix + (m + SET_SUFFIX))[|prefix|..] == m + SET_SUFFIX;
  }

  lemma SuffixShape(m: string)
    ensures var s := m + SET_SUFFIX; |s| >= 4 && s[|s| - 4] == '/' && '/' in s
  {
    assert (m + SET_SUFFIX)[|m|] == '/';
  }

  /** With slash-free names, nothing the bridge publishes reads as a set command, a point called "set" and
      the bridge's own status topics included. */
  lemma OwnTopicsAreSilent(configured: string, name: string)
    requires '/' !in name || name in BRIDGE_TOPICS
    ensures ParseSetTopic(configured, StateTopic(configured, name)) == None
  {
    match ParseSetTopic(configured, StateTopic(configured, name)) {
      case None =>
      case Some(m) =>
        OwnTopicIff(configured, name, m);
        SuffixShape(m);
        assert false;
    }
  }

  // ---------- payloads ----------

  /** The value a set payload stands for at a point; a JSON null is no value. */
  function ParseSetPayload(points: map<string, Point>, n: string, payload: Payload): Option<Json> {
    if n !in points || payload.Undecodable? then None
    else
      var k := points[n].id.kind;
      if k.Schedule? then None
      else if IsBinary(k) && payload.word.On? then Some(Whole(1))
      else if IsBinary(k) && payload.word.Off? then Some(Whole(0))
      else if !IsAnalog(k) then
        if payload.asInt.Some? then Some(Whole(payload.asInt.value)) else None
      else if payload.asFloat.Some? then Some(Fraction(payload.asFloat.value))
      else if payload.asJson == Some(Null) then None
      else payload.asJson
  }

  function NumberToJson(n: Number): Json {
    match n
    case Integer(i) => Whole(i)
    case Float(r) => Fraction(r)
  }

  function ValueToJson(v: Value): Json {
    match v
    case Analog(r) => Fraction(r)
    case Binary(active) => Text(if active then "active" else "inactive")
    case States(n) => Whole(n)
    case Plan(present, _, _) => NumberToJson(present)
  }

  /** A state message carries a JSON object, which none of the number lexers reads. */
  function StatePayload(p: Point): Payload {
    Decoded(Other, None, None, Some(Object(map["present_value" := ValueToJson(p.value)])))
  }

  function StateMessage(configured: string, points: map<string, Point>, n: string): Message
    requires n in points
  {
    Message(StateTopic(configured, n), StatePayload(points[n]))
  }

  /** The update a message asks for: a settable name and a scalar that the name's point can read. */
  function Request(configured: string, points: map<string, Point>, m: Message): Option<(string, Scalar)> {
    match ParseSetTopic(configured, m.topic)
    case None => None
    case Some(n) =>
      match ParseSetPayload(points, n, m.payload)
      case None => None
      case Some(j) =>
        match ToScalar(j)
        case None => None
        case Some(s) => Some((n, s))
  }

  function AfterMessage(configured: string, points: map<string, Point>, names: set<string>,
                        accepts: U.Accepts, m: Message): map<string, Point>
  {
    match Request(configured, points, m)
    case None => points
    case Some((n, s)) => U.AfterUpdate(points, names, map[n := s], accepts)
  }

  /** The bridge answers a request with the state of its point. */
  function Reply(configured: string, points: map<string, Point>, names: set<string>,
                 accepts: U.Accepts, m: Message): (r: seq<Message>)
    ensures |r| == if Request(configured, points, m).Some? then 1 else 0
  {
    match Request(configured, points, m)
    case None => []
    case Some((n, s)) => [StateMessage(configured, AfterMessage(configured, points, names, accepts, m), n)]
  }

  /** What the bridge publishes when it connects. */
  function StatusMessages(configured: string, info: Json, devices: Json): seq<Message> {
    var bodies := [Object(map["state" := Text("online")]), info, devices];
    seq(|BRIDGE_TOPICS|, i requires 0 <= i < 3 =>
      Message(StateTopic(configured, BRIDGE_TOPICS[i]), Decoded(Other, None, None, Some(bodies[i]))))
  }

  /** What the bridge says on connecting: that it is online, who it is, and which points it has. */
  lemma StatusSays(configured: string, info: Json, devices: Json)
    ensures var ms, base := StatusMessages(configured, info, devices), Base(configured);
            && |ms| == 3 && (forall m :: m in ms ==> m.payload.Decoded?)
            && ms[0].topic == base + "/bridge/state" && ms[1].topic == base + "/bridge/info"
            && ms[2].topic == base + "/bridge/devices"
            && ms[0].payload.asJson == Some(Object(map["state" := Text("online")]))
            && ms[1].payload.asJson == Some(info) && ms[2].payload.asJson == Some(devices)
  {
    var base := Base(configured);
    assert base + "/" + "bridge/state" == base + "/bridge/state";
    assert base + "/" + "bridge/info" == base + "/bridge/info";
    assert base + "/" + "bridge/devices" == base + "/bridge/devices";
  }

  /** A message that could make the bridge publish, whatever the points are. */
  predicate CanTrigger(configured: string, m: Message) {
    && ParseSetTopic(configured, m.topic).Some?
    && m.payload.Decoded?
    && (!m.payload.word.Other? || m.payload.asInt.Some? || m.payload.asFloat.Some?
        || (m.payload.asJson.Some? && ToScalar(m.payload.asJson.value).Some?))
  }

  /** State messages never trigger anything, not even those of points with a slash in their name. */
  lemma OwnStateCannotTrigger(configured: string, points: map<string, Point>, n: string)
    requires n in points
    ensures !CanTrigger(configured, StateMessage(configured, points, n))
  {}

  lemma ReplyNeedsTrigger(configured: string, points: map<string, Point>, names: set<string>,
                          accepts: U.Accepts, m: Message)
    ensures Reply(configured, points, names, accepts, m) != [] ==> CanTrigger(configured, m)
  {}

  lemma ReplyCannotTrigger(configured: string, points: map<string, Point>, names: set<string>,
                           accepts: U.Accepts, m: Message)
    ensures forall r :: r in Reply(configured, points, names, accepts, m) ==> !CanTrigger(configured, r)
  {
    match Request(configured, points, m)
    case None =>
    case Some((n, s)) =>
      OwnStateCannotTrigger(configured, AfterMessage(configured, points, names, accepts, m), n);
  }

  lemma StatusCannotTrigger(configured: string, info: Json, devices: Json)
    ensures forall m :: m in StatusMessages(configured, info, devices) ==> !CanTrigger(configured, m)
  {
    forall m | m in StatusMessages(configured, info, devices) ensures !CanTrigger(configured, m) {
      var i :| 0 <= i < |BRIDGE_TOPICS| && m.topic == StateTopic(configured, BRIDGE_TOPICS[i]);
      OwnTopicsAreSilent(configured, BRIDGE_TOPICS[i]);
    }
  }

  /** No message touches a protected point. */
  lemma ProtectedFromMessages(configured: string, points: map<string, Point>, names: set<string>,
                              accepts: U.Accepts, m: Message, n: string)
    requires n in points && n in names
    ensures var after := AfterMessage(configured, points, names, accepts, m);
            n in after && after[n] == points[n]
  {}

  lemma MessagesKeepPoints(configured: string, points: map<string, Point>, names: set<string>,
                           accepts: U.Accepts, m: Message)
    ensures U.SamePoints(points, AfterMessage(configured, points, names, accepts, m))
  {}

  /** How a payload names a value. Binary points read the on and off words and else a whole number, of which only
      1 is on; analog points a number, or else a JSON boolean or number; multi-state points a whole number. */
  predicate Names(payload: Payload, k: Kind, v: Value) {
    && payload.Decoded?
    && match k
       case BinaryInput | BinaryOutput | BinaryValue =>
         if payload.word.Other? then payload.asInt.Some? && v == Binary(payload.asInt.value == 1)
         else v == Binary(payload.word.On?)
       case AnalogInput | AnalogOutput | AnalogValue =>
         if payload.asFloat.Some? then v == Analog(payload.asFloat.value)
         else
           (match payload.asJson
            case Some(Flag(b)) => v == Analog(if b then 1.0 else 0.0)
            case Some(Whole(i)) => v == Analog(i as real)
            case Some(Fraction(r)) => v == Analog(r)
            case _ => false)
       case MultiStateInput | MultiStateOutput | MultiStateValue =>
         payload.asInt.Some? && v == States(payload.asInt.value)
       case Schedule => false
  }

  /** A set command for a settable, mapped, unprotected point whose payload names a value the point accepts
      gives the point that value, and changes no other. */
  lemma SetReachesPoint(configured: string, points: map<string, Point>, names: set<string>,
                        accepts: U.Accepts, n: string, payload: Payload, v: Value)
    requires Settable(n) && n in points && n !in names && Names(payload, points[n].id.kind, v)
    requires accepts(points[n].id, v)
    ensures AfterMessage(configured, points, names, accepts, Message(SetTopic(configured, n), payload))
         == points[n := points[n].(value := v)]
  {
    PrintedIsParsed(configured, n);
  }

  /** What a message commands: a settable name of a mapped point, and a value that its payload names. */
  ghost predicate Commands(configured: string, points: map<string, Point>, m: Message, n: string, v: Value) {
    m.topic == SetTopic(configured, n) && Settable(n) && n in points && Names(m.payload, points[n].id.kind, v)
  }

  lemma CommandIsRequest(configured: string, points: map<string, Point>, m: Message, n: string, v: Value)
    ensures Commands(configured, points, m, n, v) <==>
            match Request(configured, points, m)
            case None => false
            case Some((name, s)) => name == n && n in points && v == U.Desired(points[n].id.kind, s)
  {
    ParseIsInverse(configured, m.topic, n);
  }

  /** Commands are answered with the state of their point as it is then; anything else is ignored. */
  lemma AnsweredIff(configured: string, points: map<string, Point>, names: set<string>,
                    accepts: U.Accepts, m: Message)
    ensures forall n, v :: Commands(configured, points, m, n, v) ==>
              Reply(configured, points, names, accepts, m) ==
              [StateMessage(configured, AfterMessage(configured, points, names, accepts, m), n)]
    ensures (forall n, v :: !Commands(configured, points, m, n, v)) ==>
              Reply(configured, points, names, accepts, m) == []
              && AfterMessage(configured, points, names, accepts, m) == points
  {
    forall n, v | Commands(configured, points, m, n, v)
      ensures Request(configured, points, m).Some? && Request(configured, points, m).value.0 == n
    {
      CommandIsRequest(configured, points, m, n, v);
    }
    match Request(configured, points, m)
    case None =>
    case Some((n, s)) => CommandIsRequest(configured, points, m, n, U.Desired(points[n].id.kind, s));
  }

  function Slashes(k: nat): string {
    seq(k, _ => '/')
  }

  /** The base topic is the configured one without the slashes at its end. */
  lemma BaseShape(configured: string) returns (k: nat)
    ensures configured == Base(configured) + Slashes(k)
    ensures Base(configured) != "" ==> Base(configured)[|Base(configured)| - 1] != '/'
  {
    k := |configured| - |Base(configured)|;
  }

  /** A state message says on the point's own topic what its value is. */
  lemma StateSays(configured: string, points: map<string, Point>, n: string)
    requires n in points
    ensures var m, v := StateMessage(configured, points, n), points[n].value;
            && m.topic == Base(configured) + "/" + n && m.payload.Decoded?
            && m.payload.asJson == Some(Object(map["present_value" :=
                 match v
                 case Analog(r) => Fraction(r)
                 case Binary(true) => Text("active")
                 case Binary(false) => Text("inactive")
                 case States(i) => Whole(i)
                 case Plan(Integer(i), _, _) => Whole(i)
                 case Plan(Float(r), _, _) => Fraction(r)]))
  {}

  /** One message of the bridge's loop. */
  method HandleMessage(registry: Registry.PointRegistry, configured: string, accepts: U.Accepts, m: Message)
    returns (reply: seq<Message>)
    requires registry.Valid()
    modifies registry.pointMap.Values
    ensures registry.View() ==
            AfterMessage(configured, old(registry.View()), registry.commandableNames, accepts, m)
    ensures reply == Reply(configured, old(registry.View()), registry.commandableNames, accepts, m)
  {
    reply := [];
    var name := ParseSetTopic(configured, m.topic);
    if name.Some? {
      var value := ParseSetPayload(registry.View(), name.value, m.payload);
      if value.Some? {
        var scalar := ToScalar(value.value);
        if scalar.Some? {
          var _ := registry.UpdatePoints(map[name.value := scalar.value], accepts);
          reply := [StateMessage(configured, registry.View(), name.value)];
        }
      }
    }
  }
}
