/** The running server: points loaded from a file, then any interleaving of HTTP updates, gateway commands,
    MQTT traffic on the bridge's topics, polls, and writes by BACnet clients. */
module Runs {

  import opened Wrappers
  import opened Points
  import opened Json
  import opened Counting
  import B = Bridge
  import G = Gateway
  import L = LoaderSpec
  import Registry
  import U = Updates

  /** What stays fixed during a run. */
  datatype Config = Config(topic: string, names: set<string>, accepts: U.Accepts, foreign: G.Foreign)

  /** `inbox` holds messages published under the base topic and not yet delivered to the bridge, `own` and
      `others` all that the bridge and others ever published there. `outside` counts the set commands others
      published, `again` those of them that were delivered once more, as brokers do with retained messages and
      after lost acknowledgements, and `replies` the bridge's answers to set commands. */
  datatype Traffic = Traffic(inbox: seq<B.Message>, own: seq<B.Message>, others: seq<B.Message>,
                             outside: nat, again: nat, replies: nat)

  datatype Server = Server(points: map<string, Point>, traffic: Traffic)

  const SILENCE := Traffic([], [], [], 0, 0, 0)

  datatype Step =
    | HttpUpdate(update: map<string, Scalar>)
    | HttpSchedule(request: U.ScheduleRequest)
    | Command(command: G.Command)
    | Publish(message: B.Message)
    | Deliver(i: nat)
    | Lose(i: nat)
    | RepeatOwn(i: nat)
    | RepeatOther(i: nat)
    | Connect(info: Json, devices: Json)
    | Poll(n: string)
    | BacnetWrite(n: string, v: Value)

  function Without<T>(s: seq<T>, i: nat): seq<T>
    requires i < |s|
  {
    s[..i] + s[i + 1..]
  }

  predicate IsSetCommand(c: Config, m: B.Message) {
    B.ParseSetTopic(c.topic, m.topic).Some?
  }

  /** What the steps do to the points. */
  function NextPoints(c: Config, s: Server, step: Step): map<string, Point> {
    match step
    case HttpUpdate(update) => U.AfterUpdate(s.points, c.names, update, c.accepts)
    case HttpSchedule(request) =>
      if U.SevenDays(request) then U.AfterSchedule(s.points, request, c.foreign.takes) else s.points
    case Command(command) => G.Answer(s.points, c.names, c.accepts, c.foreign, command).0
    case Deliver(i) =>
      if i < |s.traffic.inbox|
      then B.AfterMessage(c.topic, s.points, c.names, c.accepts, s.traffic.inbox[i])
      else s.points
    case BacnetWrite(n, v) => U.AfterWrite(s.points, n, v)
    case _ => s.points
  }

  /** What the bridge publishes under its base topic in a step. */
  function Published(c: Config, s: Server, step: Step): seq<B.Message> {
    match step
    case Connect(info, devices) => B.StatusMessages(c.topic, info, devices)
    case Poll(n) => if n in s.points then [B.StateMessage(c.topic, s.points, n)] else []
    case Deliver(i) =>
      if i < |s.traffic.inbox| then B.Reply(c.topic, s.points, c.names, c.accepts, s.traffic.inbox[i]) else []
    case _ => []
  }

  /** What is in flight of earlier messages: delivery is in any order, and messages may be lost or repeated. */
  function InFlight(t: Traffic, step: Step): seq<B.Message> {
    match step
    case Deliver(i) => if i < |t.inbox| then Without(t.inbox, i) else t.inbox
    case Lose(i) => if i < |t.inbox| then Without(t.inbox, i) else t.inbox
    case RepeatOwn(i) => if i < |t.own| then t.inbox + [t.own[i]] else t.inbox
    case RepeatOther(i) => if i < |t.others| then t.inbox + [t.others[i]] else t.inbox
    case Publish(m) => t.inbox + [m]
    case _ => t.inbox
  }

  /** The traffic after a step in which the bridge publishes something. */
  function NextTraffic(c: Config, t: Traffic, step: Step, published: seq<B.Message>): Traffic {
    Traffic(
      InFlight(t, step) + published,
      t.own + published,
      t.others + (if step.Publish? then [step.message] else []),
      t.outside + (if step.Publish? && IsSetCommand(c, step.message) then 1 else 0),
      t.again + (if step.RepeatOther? && step.i < |t.others| && IsSetCommand(c, t.others[step.i]) then 1 else 0),
      t.replies + if step.Deliver? then |published| else 0)
  }

  function Next(c: Config, s: Server, step: Step): Server {
    Server(NextPoints(c, s, step), NextTraffic(c, s.traffic, step, Published(c, s, step)))
  }

  function Run(c: Config, s: Server, steps: seq<Step>): Server {
    if steps == [] then s else Next(c, Run(c, s, steps[..|steps| - 1]), steps[|steps| - 1])
  }

  /** What BACnet clients alone would have left in a point. */
  function Written(n: string, p: Point, steps: seq<Step>): Value {
    if steps == [] then p.value
    else
      var last := steps[|steps| - 1];
      if last.BacnetWrite? && last.n == n && Fits(p.id.kind, last.v) then last.v
      else Written(n, p, steps[..|steps| - 1])
  }

  function Boot(rows: seq<Row>): Server {
    Server(L.Mapped(L.Load(rows)), SILENCE)
  }

  /** A protected point that is not a schedule is touched by no step but a BACnet write to it. */
  lemma ProtectedStep(c: Config, s: Server, step: Step, n: string)
    requires n in s.points && n in c.names && !s.points[n].id.kind.Schedule?
    ensures var after := NextPoints(c, s, step);
            && n in after && after[n].id == s.points[n].id
            && after[n].value == if step.BacnetWrite? && step.n == n && Fits(s.points[n].id.kind, step.v)
                                 then step.v
                                 else s.points[n].value
  {
    match step
    case Command(command) => G.ProtectedFromCommands(s.points, c.names, c.accepts, c.foreign, command, n);
    case Deliver(i) =>
      if i < |s.traffic.inbox| {
        B.ProtectedFromMessages(c.topic, s.points, c.names, c.accepts, s.traffic.inbox[i], n);
      }
    case _ =>
  }

  lemma {:induction false} ProtectedRun(c: Config, s: Server, steps: seq<Step>, n: string)
    requires n in s.points && n in c.names && !s.points[n].id.kind.Schedule?
    ensures var after := Run(c, s, steps).points;
            && n in after && after[n].id == s.points[n].id
            && after[n].value == Written(n, s.points[n], steps)
  {
    if steps != [] {
      ProtectedRun(c, s, steps[..|steps| - 1], n);
      ProtectedStep(c, Run(c, s, steps[..|steps| - 1]), steps[|steps| - 1], n);
    }
  }

  /** Whole-run safety: after any load, with rows failing midway, repeated names and refused objects, and
      any run, a mapped point that was built as commandable holds exactly what BACnet clients wrote to it. */
  lemma CommandableIsolated(rows: seq<Row>, c: Config, steps: seq<Step>, n: string)
    requires n in Boot(rows).points && Boot(rows).points[n].commandable
    requires c.names == L.Names(L.Load(rows))
    ensures var after := Run(c, Boot(rows), steps).points;
            && n in after && after[n].id == Boot(rows).points[n].id
            && after[n].value == Written(n, Boot(rows).points[n], steps)
  {
    L.CommandableIsProtected(rows, n);
    var i := L.MappedFrom(L.Load(rows), n);
    L.PlacedInRange(rows, i);
    L.LoadAt(rows, i);
    ProtectedRun(c, Boot(rows), steps, n);
  }

  // ---------- what reaches open points ----------

  /** What a step asks a scalar point to hold, by whichever way in. */
  function Asked(c: Config, s: Server, step: Step, n: string): Option<Value>
    requires n in s.points
  {
    var k := s.points[n].id.kind;
    match step
    case HttpUpdate(update) => if n in update then Some(U.Desired(k, update[n])) else None
    case Command(Call(_, _, Some(ServerUpdatePoints), params)) =>
      var update := ToUpdate(G.Argument(params, "update"));
      if update.Some? && n in update.value then Some(U.Desired(k, update.value[n])) else None
    case Deliver(i) =>
      if i < |s.traffic.inbox| && B.Request(c.topic, s.points, s.traffic.inbox[i]).Some?
         && B.Request(c.topic, s.points, s.traffic.inbox[i]).value.0 == n
      then Some(U.Desired(k, B.Request(c.topic, s.points, s.traffic.inbox[i]).value.1))
      else None
    case BacnetWrite(m, v) => if m == n && Fits(k, v) then Some(v) else None
    case _ => None
  }

  /** The last value that a run asks for, or the one at its start. */
  function LastAsked(c: Config, s: Server, steps: seq<Step>, n: string): Value
    requires n in s.points
  {
    if steps == [] then s.points[n].value
    else
      RunKeepsPoints(c, s, steps[..|steps| - 1]);
      var asked := Asked(c, Run(c, s, steps[..|steps| - 1]), steps[|steps| - 1], n);
      if asked.Some? then asked.value else LastAsked(c, s, steps[..|steps| - 1], n)
  }

  lemma FollowsStep(c: Config, s: Server, step: Step, n: string)
    requires n in s.points && n !in c.names && !s.points[n].id.kind.Schedule?
    requires forall v :: c.accepts(s.points[n].id, v)
    ensures var after, asked := NextPoints(c, s, step), Asked(c, s, step, n);
            n in after && after[n] == if asked.Some? then s.points[n].(value := asked.value) else s.points[n]
  {
    StepKeepsPoints(c, s, step);
    match step
    case HttpSchedule(request) =>
    case _ =>
  }

  /** Whole-run liveness of values: an open point that accepts every value holds, at any time, the last value
      that any of the ways in asked for. */
  lemma {:induction false} OpenPointFollows(c: Config, s: Server, steps: seq<Step>, n: string)
    requires n in s.points && n !in c.names && !s.points[n].id.kind.Schedule?
    requires forall v :: c.accepts(s.points[n].id, v)
    ensures var after := Run(c, s, steps).points;
            n in after && after[n] == s.points[n].(value := LastAsked(c, s, steps, n))
  {
    if steps != [] {
      OpenPointFollows(c, s, steps[..|steps| - 1], n);
      FollowsStep(c, Run(c, s, steps[..|steps| - 1]), steps[|steps| - 1], n);
    }
  }

  /** A schedule follows an HTTP update that it takes: default and week are set if asked for, and the present value
      becomes the default. */
  lemma ScheduleFollows(c: Config, s: Server, request: U.ScheduleRequest)
    requires U.IsSchedule(s.points, request.name) && (request.weekly.Some? ==> |request.weekly.value| == 7)
    requires forall a :: c.foreign.takes(s.points[request.name].id, a)
    ensures var p := s.points[request.name];
            var default := if request.default.Some? then U.ToNumber(request.default.value) else p.value.default;
            var week := if request.weekly.Some? then request.weekly.value else p.value.weekly;
            NextPoints(c, s, HttpSchedule(request)) ==
            s.points[request.name := p.(value := Plan(default, default, week))]
  {
    U.CompleteIsReplan(s.points, request, c.foreign.takes);
  }

  /** What others put in flight, and what gets lost or is repeated. */
  lemma MessagesInFlight(c: Config, s: Server, m: B.Message, i: nat)
    ensures Next(c, s, Publish(m)).traffic.inbox == s.traffic.inbox + [m]
    ensures Next(c, s, Publish(m)).traffic.others == s.traffic.others + [m]
    ensures i < |s.traffic.inbox| ==>
              Next(c, s, Lose(i)).traffic.inbox == s.traffic.inbox[..i] + s.traffic.inbox[i + 1..]
    ensures i < |s.traffic.own| ==> Next(c, s, RepeatOwn(i)).traffic.inbox == s.traffic.inbox + [s.traffic.own[i]]
    ensures i < |s.traffic.others| ==>
              Next(c, s, RepeatOther(i)).traffic.inbox == s.traffic.inbox + [s.traffic.others[i]]
  {}

  /** What the bridge puts in flight: states when polled, answers to commands, and its status on connecting. */
  lemma StepsArePublished(c: Config, s: Server, n: string, i: nat, info: Json, devices: Json)
    ensures n in s.points ==>
              var t := Next(c, s, Poll(n)).traffic;
              && t.inbox == s.traffic.inbox + [B.StateMessage(c.topic, s.points, n)]
              && t.own == s.traffic.own + [B.StateMessage(c.topic, s.points, n)]
    ensures i < |s.traffic.inbox| ==>
              Next(c, s, Deliver(i)).traffic.inbox ==
              s.traffic.inbox[..i] + s.traffic.inbox[i + 1..]
              + B.Reply(c.topic, s.points, c.names, c.accepts, s.traffic.inbox[i])
    ensures Next(c, s, Connect(info, devices)).traffic.inbox ==
            s.traffic.inbox + B.StatusMessages(c.topic, info, devices)
  {}

  // ---------- what a run keeps ----------

  lemma StepKeepsPoints(c: Config, s: Server, step: Step)
    ensures U.SamePoints(s.points, NextPoints(c, s, step))
  {
    match step
    case Command(command) => G.CommandsKeepPoints(s.points, c.names, c.accepts, c.foreign, command);
    case Deliver(i) =>
      if i < |s.traffic.inbox| {
        B.MessagesKeepPoints(c.topic, s.points, c.names, c.accepts, s.traffic.inbox[i]);
      }
    case _ =>
  }

  lemma {:induction false} RunKeepsPoints(c: Config, s: Server, steps: seq<Step>)
    ensures U.SamePoints(s.points, Run(c, s, steps).points)
  {
    if steps != [] {
      RunKeepsPoints(c, s, steps[..|steps| - 1]);
      StepKeepsPoints(c, Run(c, s, steps[..|steps| - 1]), steps[|steps| - 1]);
    }
  }

  /** At any time different names stand for objects with different identifiers. */
  lemma IdentifiersStayUnique(rows: seq<Row>, c: Config, steps: seq<Step>, m: string, n: string)
    requires var points := Run(c, Boot(rows), steps).points; m in points && n in points && m != n
    ensures var points := Run(c, Boot(rows), steps).points;
            points[m].id != points[n].id && 0 <= points[m].id.instance <= MAX_INSTANCE
  {
    RunKeepsPoints(c, Boot(rows), steps);
    L.IdentifiersUnique(rows, m, n);
  }

  /** The commandable read-out is the BACnet side's own view: for a file with distinct names, at any time it
      lists exactly the protected points, each with what BACnet clients wrote last. */
  lemma CommandableReadOut(rows: seq<Row>, c: Config, steps: seq<Step>)
    requires forall i, j :: 0 <= i < j < |rows| ==> rows[i].name != rows[j].name
    requires c.names == L.Names(L.Load(rows))
    ensures L.SelectedValues(Run(c, Boot(rows), steps).points, c.names) ==
            map n | n in Boot(rows).points && n in c.names ::
              Show(Boot(rows).points[n].id.kind, Written(n, Boot(rows).points[n], steps))
  {
    var before, after := Boot(rows).points, Run(c, Boot(rows), steps).points;
    RunKeepsPoints(c, Boot(rows), steps);
    forall n | n in before
      ensures L.SelectedByType(after[n], n, c.names) <==> n in c.names
      ensures n in c.names ==> after[n].value == Written(n, before[n], steps)
    {
      L.NotionsAgree(rows, n);
      if n in c.names {
        ProtectedRun(c, Boot(rows), steps, n);
      }
    }
  }

  lemma StepKeepsFit(c: Config, s: Server, step: Step)
    requires U.AllFit(s.points)
    ensures U.AllFit(NextPoints(c, s, step))
  {
    match step
    case Command(command) => G.CommandsKeepFit(s.points, c.names, c.accepts, c.foreign, command);
    case HttpSchedule(request) =>
      if U.SevenDays(request) {
        U.ScheduleKeepsFit(s.points, request, c.foreign.takes);
      }
    case _ =>
  }

  /** At any time every value has the type of its point, so the commandable read-out never fails and schedules
      have seven days. */
  lemma {:induction false} ValuesKeepType(rows: seq<Row>, c: Config, steps: seq<Step>)
    ensures U.AllFit(Run(c, Boot(rows), steps).points)
    ensures forall n :: n in Run(c, Boot(rows), steps).points ==>
              var p := Run(c, Boot(rows), steps).points[n];
              && (p.id.kind in {AnalogInput, AnalogOutput, AnalogValue} ==> p.value.Analog?)
              && (p.id.kind in {BinaryInput, BinaryOutput, BinaryValue} ==> p.value.Binary?)
              && (p.id.kind in {MultiStateInput, MultiStateOutput, MultiStateValue} ==> p.value.States?)
              && (p.id.kind == Schedule ==> p.value.Plan? && |p.value.weekly| == 7)
    ensures var shown := L.SelectedValues(Run(c, Boot(rows), steps).points, c.names);
            forall n :: n in shown ==> !shown[n].Unreadable?
  {
    if steps == [] {
      forall n | n in Boot(rows).points ensures Fits(Boot(rows).points[n].id.kind, Boot(rows).points[n].value) {
        var i := L.MappedFrom(L.Load(rows), n);
        InitialFits(Boot(rows).points[n].id.kind, L.Load(rows)[i].row.default);
      }
    } else {
      ValuesKeepType(rows, c, steps[..|steps| - 1]);
      StepKeepsFit(c, Run(c, Boot(rows), steps[..|steps| - 1]), steps[|steps| - 1]);
    }
  }

  // ---------- the program's own run ----------

  /** One step of the running program. */
  method TakeStep(registry: Registry.PointRegistry, c: Config, traffic: Traffic, step: Step)
    returns (traffic': Traffic)
    requires registry.Valid() && c.names == registry.commandableNames
    modifies registry.pointMap.Values
    ensures Server(registry.View(), traffic') == Next(c, Server(old(registry.View()), traffic), step)
  {
    var published: seq<B.Message> := [];
    match step {
      case HttpUpdate(update) =>
        var _ := registry.UpdatePoints(update, c.accepts);
      case HttpSchedule(request) =>
        if U.SevenDays(request) {
          var _ := registry.UpdateSchedule(request, c.foreign.takes);
        }
      case Command(command) =>
        var _ := G.Handle(registry, c.accepts, c.foreign, command);
      case Deliver(i) =>
        if i < |traffic.inbox| {
          published := B.HandleMessage(registry, c.topic, c.accepts, traffic.inbox[i]);
        }
      case Connect(info, devices) =>
        published := B.StatusMessages(c.topic, info, devices);
      case Poll(n) =>
        if n in registry.pointMap {
          published := [B.StateMessage(c.topic, registry.View(), n)];
        }
      case BacnetWrite(n, v) =>
        registry.Write(n, v);
      case _ =>
    }
    traffic' := NextTraffic(c, traffic, step, published);
  }

  /** The whole program: a registry loaded from a file, then every step in turn. It goes through exactly the
      states that the theorems of this module are about. */
  method RunServer(rows: seq<Row>, c: Config, steps: seq<Step>)
    returns (registry: Registry.PointRegistry, traffic: Traffic)
    requires c.names == L.Names(L.Load(rows))
    ensures fresh(registry) && registry.Valid() && registry.commandableNames == c.names
    ensures Server(registry.View(), traffic) == Run(c, Boot(rows), steps)
  {
    registry := new Registry.PointRegistry();
    ghost var _, _ := registry.Load(rows);
    traffic := SILENCE;
    for i := 0 to |steps|
      invariant fresh(registry) && registry.Valid() && registry.commandableNames == c.names
      invariant forall n :: n in registry.pointMap ==> fresh(registry.pointMap[n])
      invariant Server(registry.View(), traffic) == Run(c, Boot(rows), steps[..i])
    {
      assert steps[..i + 1][..i] == steps[..i];
      traffic := TakeStep(registry, c, traffic, steps[i]);
    }
    assert steps[..|steps|] == steps;
  }

  // ---------- no echo ----------

  /** Messages in flight that could still make the bridge answer. */
  function Pending(c: Config, inbox: seq<B.Message>): nat {
    if inbox == [] then 0
    else Pending(c, inbox[..|inbox| - 1]) + if B.CanTrigger(c.topic, inbox[|inbox| - 1]) then 1 else 0
  }

  lemma {:induction false} PendingConcat(c: Config, a: seq<B.Message>, b: seq<B.Message>)
    ensures Pending(c, a + b) == Pending(c, a) + Pending(c, b)
  {
    if b == [] {
      assert a + b == a;
    } else {
      assert (a + b)[..|a + b| - 1] == a + b[..|b| - 1];
      PendingConcat(c, a, b[..|b| - 1]);
    }
  }

  lemma PendingOne(c: Config, m: B.Message)
    ensures Pending(c, [m]) == if B.CanTrigger(c.topic, m) then 1 else 0
  {
    assert [m][..0] == [];
  }

  lemma PendingWithout(c: Config, inbox: seq<B.Message>, i: nat)
    requires i < |inbox|
    ensures Pending(c, inbox) ==
            Pending(c, Without(inbox, i)) + if B.CanTrigger(c.topic, inbox[i]) then 1 else 0
  {
    assert inbox == inbox[..i] + ([inbox[i]] + inbox[i + 1..]);
    PendingConcat(c, inbox[..i], [inbox[i]] + inbox[i + 1..]);
    PendingConcat(c, [inbox[i]], inbox[i + 1..]);
    PendingConcat(c, inbox[..i], inbox[i + 1..]);
    PendingOne(c, inbox[i]);
  }

  lemma {:induction false} NoneTrigger(c: Config, ms: seq<B.Message>)
    requires forall m :: m in ms ==> !B.CanTrigger(c.topic, m)
    ensures Pending(c, ms) == 0
  {
    if ms != [] {
      NoneTrigger(c, ms[..|ms| - 1]);
    }
  }

  /** Nothing the bridge publishes can trigger it again. */
  lemma PublishedCannotTrigger(c: Config, s: Server, step: Step)
    ensures forall m :: m in Published(c, s, step) ==> !B.CanTrigger(c.topic, m)
  {
    match step
    case Connect(info, devices) => B.StatusCannotTrigger(c.topic, info, devices);
    case Poll(n) =>
      if n in s.points {
        B.OwnStateCannotTrigger(c.topic, s.points, n);
      }
    case Deliver(i) =>
      if i < |s.traffic.inbox| {
        B.ReplyCannotTrigger(c.topic, s.points, c.names, c.accepts, s.traffic.inbox[i]);
      }
    case _ =>
  }

  lemma PendingMore(c: Config, inbox: seq<B.Message>, m: B.Message)
    ensures Pending(c, inbox + [m]) == Pending(c, inbox) + if B.CanTrigger(c.topic, m) then 1 else 0
  {
    PendingConcat(c, inbox, [m]);
    PendingOne(c, m);
  }

  lemma InFlightPending(c: Config, t: Traffic, step: Step)
    requires forall m :: m in t.own ==> !B.CanTrigger(c.topic, m)
    ensures Pending(c, InFlight(t, step)) <=
            Pending(c, t.inbox)
            + (if step.Publish? && IsSetCommand(c, step.message) then 1 else 0)
            + (if step.RepeatOther? && step.i < |t.others| && IsSetCommand(c, t.others[step.i]) then 1 else 0)
            - (if step.Deliver? && step.i < |t.inbox| && B.CanTrigger(c.topic, t.inbox[step.i]) then 1 else 0)
  {
    match step
    case Publish(m) => PendingMore(c, t.inbox, m);
    case RepeatOwn(i) =>
      if i < |t.own| {
        assert t.own[i] in t.own;
        PendingMore(c, t.inbox, t.own[i]);
      }
    case RepeatOther(i) =>
      if i < |t.others| {
        PendingMore(c, t.inbox, t.others[i]);
      }
    case Deliver(i) =>
      if i < |t.inbox| {
        PendingWithout(c, t.inbox, i);
      }
    case Lose(i) =>
      if i < |t.inbox| {
        PendingWithout(c, t.inbox, i);
      }
    case _ =>
  }

  /** Answers given and still possible are covered by set commands of others, counting repeated deliveries. */
  ghost predicate NoEchoSoFar(c: Config, t: Traffic) {
    && (forall m :: m in t.own ==> !B.CanTrigger(c.topic, m))
    && t.replies + Pending(c, t.inbox) <= t.outside + t.again
  }

  lemma NoEchoStep(c: Config, s: Server, step: Step)
    requires NoEchoSoFar(c, s.traffic)
    ensures NoEchoSoFar(c, Next(c, s, step).traffic)
  {
    var published := Published(c, s, step);
    PendingConcat(c, InFlight(s.traffic, step), published);
    PublishedCannotTrigger(c, s, step);
    NoneTrigger(c, published);
    InFlightPending(c, s.traffic, step);
    if step.Deliver? && step.i < |s.traffic.inbox| {
      B.ReplyNeedsTrigger(c.topic, s.points, c.names, c.accepts, s.traffic.inbox[step.i]);
    }
  }

  /** No echo loop: although the bridge hears everything it publishes, and hears it again when messages are
      repeated, over any run it answers at most as many set commands as others published or the broker
      repeated for them, whatever the points are called. */
  lemma {:induction false} NoEcho(rows: seq<Row>, c: Config, steps: seq<Step>)
    ensures NoEchoSoFar(c, Run(c, Boot(rows), steps).traffic)
    ensures var t := Run(c, Boot(rows), steps).traffic; t.replies <= t.outside + t.again
  {
    if steps != [] {
      NoEcho(rows, c, steps[..|steps| - 1]);
      NoEchoStep(c, Run(c, Boot(rows), steps[..|steps| - 1]), steps[|steps| - 1]);
    }
  }

  // ---------- what is counted ----------

  /** Where others published set commands. */
  function SetMarks(c: Config, messages: seq<B.Message>): seq<bool> {
    seq(|messages|, i requires 0 <= i < |messages| => B.ParseSetTopic(c.topic, messages[i].topic).Some?)
  }

  /** The step has the broker deliver a set command of others once more. */
  predicate Repeats(c: Config, t: Traffic, step: Step) {
    step.RepeatOther? && step.i < |t.others| && B.ParseSetTopic(c.topic, t.others[step.i].topic).Some?
  }

  /** The step delivers a message that the bridge answers. */
  predicate Answers(c: Config, s: Server, step: Step) {
    step.Deliver? && step.i < |s.traffic.inbox|
    && B.Reply(c.topic, s.points, c.names, c.accepts, s.traffic.inbox[step.i]) != []
  }

  function RepeatMarks(c: Config, s: Server, steps: seq<Step>): (marks: seq<bool>)
    ensures |marks| == |steps|
  {
    if steps == [] then []
    else
      var most := steps[..|steps| - 1];
      RepeatMarks(c, s, most) + [Repeats(c, Run(c, s, most).traffic, steps[|most|])]
  }

  function AnswerMarks(c: Config, s: Server, steps: seq<Step>): (marks: seq<bool>)
    ensures |marks| == |steps|
  {
    if steps == [] then []
    else
      var most := steps[..|steps| - 1];
      AnswerMarks(c, s, most) + [Answers(c, Run(c, s, most), steps[|most|])]
  }

  /** The counters of the bound are what they are called: set commands among the messages of others, repeated
      deliveries of those, and answered deliveries. */
  lemma {:induction false} CountersCount(rows: seq<Row>, c: Config, steps: seq<Step>)
    ensures var t := Run(c, Boot(rows), steps).traffic;
            && t.outside == |Positions(SetMarks(c, t.others))|
            && t.again == |Positions(RepeatMarks(c, Boot(rows), steps))|
            && t.replies == |Positions(AnswerMarks(c, Boot(rows), steps))|
  {
    if steps != [] {
      var most, step := steps[..|steps| - 1], steps[|steps| - 1];
      var s := Run(c, Boot(rows), most);
      CountersCount(rows, c, most);
      PositionsMore(RepeatMarks(c, Boot(rows), most), Repeats(c, s.traffic, step));
      PositionsMore(AnswerMarks(c, Boot(rows), most), Answers(c, s, step));
      if step.Publish? {
        PositionsMore(SetMarks(c, s.traffic.others), B.ParseSetTopic(c.topic, step.message.topic).Some?);
        assert SetMarks(c, s.traffic.others + [step.message]) ==
               SetMarks(c, s.traffic.others) + [B.ParseSetTopic(c.topic, step.message.topic).Some?];
      } else {
        assert s.traffic.others + [] == s.traffic.others;
      }
    }
  }
}
