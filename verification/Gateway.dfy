/** The MQTT RPC gateway: parsing a command, dispatching it, and the command/ack loop of one session. */
module Gateway {

  import opened Wrappers
  import opened Points
  import opened Json
  import L = LoaderSpec
  import S = Strings
  import U = Updates
  import Registry

  datatype Defect = InvalidJson | PayloadMustBeObject | MissingOrInvalidMethod | ParamsMustBeObject

  datatype Command =
    | Malformed(correlation: Option<string>, defect: Defect)
    | Call(correlation: Option<string>, name: string, which: Option<Method>, params: map<string, Json>)

  /** How method names are read, and what lies outside: how a JSON value prints, how a request reads, which
      assignments schedules take and whether they can be rendered, and the replies of client methods. */
  datatype Foreign = Foreign(
    methods: string -> Option<Method>,
    render: Json -> string,
    scheduleRequest: Json -> Option<U.ScheduleRequest>,
    nameRequest: Json -> Option<string>,
    takes: U.Takes,
    renders: Value -> bool,
    client: (string, Json) -> Result<Json, string>)

  datatype Method =
    | ServerHello | ServerUpdatePoints | ServerReadCommandable | ServerReadAllValues
    | ServerReadSchedule | ServerUpdateSchedule
    | ClientMethod

  const CLIENT_NAMES := {
    "client_read_property", "client_write_property", "client_read_multiple", "client_whois_range",
    "client_point_discovery", "client_supervisory_logic_checks", "client_read_point_priority_array",
    "client_whois_router_to_network"}

  /** The method names of the program. */
  function MethodNamed(name: string): Option<Method> {
    if name == "server_hello" then Some(ServerHello)
    else if name == "server_update_points" then Some(ServerUpdatePoints)
    else if name == "server_read_commandable" then Some(ServerReadCommandable)
    else if name == "server_read_all_values" then Some(ServerReadAllValues)
    else if name == "server_read_schedule" then Some(ServerReadSchedule)
    else if name == "server_update_schedule" then Some(ServerUpdateSchedule)
    else if name in CLIENT_NAMES then Some(ClientMethod)
    else None
  }

  /** Method names are read as the program reads them. */
  ghost predicate Dispatches(foreign: Foreign) {
    forall name :: foreign.methods(name) == MethodNamed(name)
  }

  datatype Search = Missing | NotSchedule | Found(point: Point)

  datatype Body =
    | Hello
    | Updated(replies: map<string, U.Reply>)
    | Values(values: map<string, Value>)
    | Commandables(shown: map<string, ReadOut>)
    | ScheduleReply(name: string, found: Search)
    | FromClient(reply: Json)

  datatype Failure = ParseError(defect: Defect) | UnknownMethod(name: string) | Invalid | Interrupted
                   | Raised(message: string)

  datatype Ack = Ack(correlation: string, name: Option<string>, outcome: Result<Body, Failure>)

  function Field(fields: map<string, Json>, key: string): Json {
    if key in fields then fields[key] else Null
  }

  /** The id of a command: its own field, or `id` in its absence. */
  function ChosenId(fields: map<string, Json>): Json {
    if Field(fields, "correlation_id") == Null then Field(fields, "id") else Field(fields, "correlation_id")
  }

  function Printed(j: Json, foreign: Foreign): string {
    if j.Text? then j.s else foreign.render(j)
  }

  function Correlation(fields: map<string, Json>, foreign: Foreign): Option<string> {
    if ChosenId(fields) == Null then None else Some(Printed(ChosenId(fields), foreign))
  }

  function ParseCommand(payload: Payload, foreign: Foreign): Command {
    if payload.Undecodable? || payload.asJson.None? then Malformed(None, InvalidJson)
    else
      var data := payload.asJson.value;
      if !data.Object? then Malformed(None, PayloadMustBeObject)
      else
        var correlation := Correlation(data.fields, foreign);
        var name, params := Field(data.fields, "method"), Field(data.fields, "params");
        if !name.Text? || name.s == "" then Malformed(correlation, MissingOrInvalidMethod)
        else if params != Null && !params.Object? then Malformed(correlation, ParamsMustBeObject)
        else
          var stripped := S.Strip(name.s);
          Call(correlation, stripped, foreign.methods(stripped),
               if params == Null then map[] else params.fields)
  }

  /** A request may be wrapped in a named parameter or be the parameters themselves. */
  function Argument(params: map<string, Json>, key: string): Json {
    if key in params then params[key] else Object(params)
  }

  function ScalarValues(points: map<string, Point>): map<string, Value> {
    map n | n in points && !points[n].id.kind.Schedule? :: points[n].value
  }

  function FindSchedule(points: map<string, Point>, name: string): Body {
    ScheduleReply(name,
                  if name !in points then Missing
                  else if points[name].id.kind.Schedule? then Found(points[name])
                  else NotSchedule)
  }

  /** The answer about a schedule, unless it cannot be rendered. */
  function ScheduleAnswer(points: map<string, Point>, name: string, foreign: Foreign): Result<Body, Failure> {
    if name in points && points[name].id.kind.Schedule? && !foreign.renders(points[name].value) then Err(Interrupted)
    else Ok(FindSchedule(points, name))
  }

  /** The state after a method and what it answers. */
  function Perform(points: map<string, Point>, names: set<string>, accepts: U.Accepts, foreign: Foreign,
                   which: Method, name: string, params: map<string, Json>)
    : (r: (map<string, Point>, Result<Body, Failure>))
    ensures r.1.Err? ==> !r.1.error.ParseError?
    ensures r.0 != points ==> which.ServerUpdatePoints? || which.ServerUpdateSchedule?
  {
    match which
    case ServerHello => (points, Ok(Hello))
    case ServerUpdatePoints =>
      (match ToUpdate(Argument(params, "update"))
       case None => (points, Err(Invalid))
       case Some(update) =>
         (U.AfterUpdate(points, names, update, accepts), Ok(Updated(U.Replies(points, names, update, accepts)))))
    case ServerReadCommandable => (points, Ok(Commandables(L.SelectedValues(points, names))))
    case ServerReadAllValues => (points, Ok(Values(ScalarValues(points))))
    case ServerReadSchedule =>
      (match foreign.nameRequest(Argument(params, "request"))
       case None => (points, Err(Invalid))
       case Some(n) => (points, ScheduleAnswer(points, n, foreign)))
    case ServerUpdateSchedule =>
      (match foreign.scheduleRequest(Argument(params, "update"))
       case None => (points, Err(Invalid))
       case Some(req) =>
         if !U.SevenDays(req) then (points, Err(Invalid))
         else
           var after := U.AfterSchedule(points, req, foreign.takes);
           (after, if U.Completes(points, req, foreign.takes) then ScheduleAnswer(after, req.name, foreign)
                   else Err(Interrupted)))
    case ClientMethod =>
      (match foreign.client(name, Object(params))
       case Ok(reply) => (points, Ok(FromClient(reply)))
       case Err(e) => (points, Err(Raised(e))))
  }

  function Envelope(correlation: Option<string>, name: Option<string>, outcome: Result<Body, Failure>): Ack {
    Ack(if correlation.Some? && correlation.value != "" then correlation.value else "unknown", name, outcome)
  }

  function Answer(points: map<string, Point>, names: set<string>, accepts: U.Accepts, foreign: Foreign,
                  command: Command): (map<string, Point>, Ack)
  {
    match command
    case Malformed(correlation, defect) => (points, Envelope(correlation, None, Err(ParseError(defect))))
    case Call(correlation, name, None, _) =>
      (points, Envelope(correlation, Some(name), Err(UnknownMethod(name))))
    case Call(correlation, name, Some(which), params) =>
      var (after, outcome) := Perform(points, names, accepts, foreign, which, name, params);
      (after, Envelope(correlation, Some(name), outcome))
  }

  /** The two methods that write. */
  lemma WritersHaveOneName(name: string)
    ensures MethodNamed(name) == Some(ServerUpdatePoints) <==> name == "server_update_points"
    ensures MethodNamed(name) == Some(ServerUpdateSchedule) <==> name == "server_update_schedule"
  {
    assert |"server_update_points"| == 20 && |"server_update_schedule"| == 22;
  }

  /** Only two method names can change a point. */
  lemma WritersByName(points: map<string, Point>, names: set<string>, accepts: U.Accepts, foreign: Foreign,
                      payload: Payload)
    requires Dispatches(foreign)
    ensures var command := ParseCommand(payload, foreign);
            Answer(points, names, accepts, foreign, command).0 != points ==>
              command.Call? && command.name in {"server_update_points", "server_update_schedule"}
  {
    var command := ParseCommand(payload, foreign);
    if command.Call? {
      assert command.which == MethodNamed(command.name);
      WritersHaveOneName(command.name);
    }
  }

  /** The id that a payload carries: its correlation_id, or in its absence its id. */
  ghost predicate Sends(payload: Payload, id: Json) {
    && payload.Decoded? && payload.asJson.Some? && payload.asJson.value.Object? && id != Null
    && var fields := payload.asJson.value.fields;
       if "correlation_id" in fields && fields["correlation_id"] != Null then id == fields["correlation_id"]
       else "id" in fields && id == fields["id"]
  }

  lemma CorrelationIs(payload: Payload, foreign: Foreign, id: Json)
    ensures Sends(payload, id) ==> ParseCommand(payload, foreign).correlation == Some(Printed(id, foreign))
    ensures (forall j :: !Sends(payload, j)) ==> ParseCommand(payload, foreign).correlation == None
  {
    if payload.Decoded? && payload.asJson.Some? && payload.asJson.value.Object? {
      var chosen := ChosenId(payload.asJson.value.fields);
      assert chosen != Null ==> Sends(payload, chosen);
    }
  }

  /** However a command fares, its ack echoes the id it carried: a text as it is and anything else as it prints.
      It says "unknown" when there is none or it prints as nothing. */
  lemma EchoesCorrelation(points: map<string, Point>, names: set<string>, accepts: U.Accepts, foreign: Foreign,
                          payload: Payload)
    ensures var ack := Answer(points, names, accepts, foreign, ParseCommand(payload, foreign)).1;
            && (forall id :: Sends(payload, id) ==>
                  var printed := if id.Text? then id.s else foreign.render(id);
                  ack.correlation == if printed != "" then printed else "unknown")
            && ((forall id :: !Sends(payload, id)) ==> ack.correlation == "unknown")
  {
    forall id ensures Sends(payload, id) ==>
                        ParseCommand(payload, foreign).correlation == Some(Printed(id, foreign)) {
      CorrelationIs(payload, foreign, id);
    }
    CorrelationIs(payload, foreign, Null);
  }

  /** A malformed command reaches no method. The ack of a parsed command always carries a method name, so the
      assertion in the loop never fails. */
  lemma MalformedNotDispatched(points: map<string, Point>, names: set<string>, accepts: U.Accepts,
                               foreign: Foreign, command: Command)
    ensures var (after, ack) := Answer(points, names, accepts, foreign, command);
            && (ack.name.None? <==> command.Malformed?)
            && (ack.name.None? <==> ack.outcome.Err? && ack.outcome.error.ParseError?)
            && (ack.name.None? ==> after == points)
  {}

  /** The schedule update that a command asks for. */
  function ScheduleUpdate(command: Command, foreign: Foreign): Option<U.ScheduleRequest> {
    if command.Call? && command.which == Some(ServerUpdateSchedule)
    then foreign.scheduleRequest(Argument(command.params, "update"))
    else None
  }

  /** A schedule update that stops, in an assignment or when its answer is rendered, after it assigned
      something new. */
  ghost predicate Torn(points: map<string, Point>, foreign: Foreign, req: U.ScheduleRequest) {
    && U.SevenDays(req) && U.IsSchedule(points, req.name)
    && var p := points[req.name];
       var assignments := U.Assignments(p.value, req);
       var taken := U.Taken(p.id, assignments, foreign.takes);
       && (taken < |assignments| || !foreign.renders(U.Replan(p.value, req)))
       && exists i :: 0 <= i < taken && !U.Holds(p.value, assignments[i])
  }

  lemma TornIff(points: map<string, Point>, foreign: Foreign, req: U.ScheduleRequest)
    requires U.SevenDays(req)
    ensures var after := U.AfterSchedule(points, req, foreign.takes);
            var failed := !U.Completes(points, req, foreign.takes) || ScheduleAnswer(after, req.name, foreign).Err?;
            failed && after != points <==> Torn(points, foreign, req)
  {
    if U.IsSchedule(points, req.name) {
      var p := points[req.name];
      var assignments := U.Assignments(p.value, req);
      var after := U.AfterSchedule(points, req, foreign.takes);
      U.ChangesIff(p.value, req, U.Taken(p.id, assignments, foreign.takes));
      assert after[req.name].value == p.value ==> after == points;
      if U.Completes(points, req, foreign.takes) {
        U.CompleteIsReplan(points, req, foreign.takes);
      }
    }
  }

  /** An error answer means that nothing changed, except exactly for torn schedule updates. */
  lemma ErrorChangesNothingIff(points: map<string, Point>, names: set<string>, accepts: U.Accepts,
                               foreign: Foreign, command: Command)
    ensures var (after, ack) := Answer(points, names, accepts, foreign, command);
            var req := ScheduleUpdate(command, foreign);
            ack.outcome.Err? ==> (after != points <==> req.Some? && Torn(points, foreign, req.value))
  {
    var req := ScheduleUpdate(command, foreign);
    if req.Some? && U.SevenDays(req.value) {
      TornIff(points, foreign, req.value);
    }
  }

  // ---------- what commands do ----------

  /** The payload is a JSON object with a method name and, unless absent or null, an object of parameters. */
  ghost predicate Carries(payload: Payload, name: string, params: map<string, Json>) {
    && payload.Decoded? && payload.asJson.Some? && payload.asJson.value.Object?
    && var fields := payload.asJson.value.fields;
       && "method" in fields && fields["method"].Text? && fields["method"].s != ""
       && S.Strip(fields["method"].s) == name
       && (if "params" in fields && fields["params"] != Null then fields["params"] == Object(params)
           else params == map[])
  }

  /** A payload is parsed as a command exactly when it carries one, and name and parameters survive. */
  lemma ParsesIff(payload: Payload, foreign: Foreign, name: string, params: map<string, Json>)
    ensures var command := ParseCommand(payload, foreign);
            command.Call? && command.name == name && command.params == params <==> Carries(payload, name, params)
    ensures ParseCommand(payload, foreign).Malformed? ==> !Carries(payload, name, params)
  {}

  /** Why a payload is not a command. */
  lemma DefectIs(payload: Payload, foreign: Foreign)
    ensures var command := ParseCommand(payload, foreign);
            command.Malformed? ==>
              match command.defect
              case InvalidJson => payload.Undecodable? || payload.asJson.None?
              case PayloadMustBeObject => payload.Decoded? && payload.asJson.Some? && !payload.asJson.value.Object?
              case MissingOrInvalidMethod =>
                var fields := payload.asJson.value.fields;
                "method" !in fields || !fields["method"].Text? || fields["method"] == Text("")
              case ParamsMustBeObject =>
                var fields := payload.asJson.value.fields;
                "params" in fields && fields["params"] != Null && !fields["params"].Object?
  {}

  /** What each of the other names stands for; the names are those the program documents. */
  lemma MethodNames(name: string)
    ensures MethodNamed("server_hello") == Some(ServerHello)
    ensures MethodNamed("server_read_commandable") == Some(ServerReadCommandable)
    ensures MethodNamed("server_read_all_values") == Some(ServerReadAllValues)
    ensures MethodNamed("server_read_schedule") == Some(ServerReadSchedule)
    ensures MethodNamed(name) == Some(ClientMethod) ==> name in CLIENT_NAMES
  {
    assert |"server_hello"| == 12 && |"server_update_points"| == 20 && |"server_read_commandable"| == 23
        && |"server_read_all_values"| == 22 && |"server_read_schedule"| == 20;
    assert "server_read_schedule"[7] == 'r' && "server_update_points"[7] == 'u';
  }

  lemma ClientNames(name: string)
    requires name in CLIENT_NAMES
    ensures MethodNamed(name) == Some(ClientMethod)
  {
    assert name[0] == 'c';
    assert "server_hello"[0] == "server_update_points"[0] == "server_read_commandable"[0] == 's';
    assert "server_read_all_values"[0] == "server_read_schedule"[0] == "server_update_schedule"[0] == 's';
  }

  /** A command reaches the method its name stands for, with its parameters. */
  lemma Reaches(payload: Payload, foreign: Foreign, name: string, params: map<string, Json>)
    requires Dispatches(foreign) && Carries(payload, name, params)
    ensures var command := ParseCommand(payload, foreign);
            command == Call(command.correlation, name, MethodNamed(name), params)
  {}

  /** What a command is about: the named parameter, or the parameters themselves. */
  ghost predicate About(params: map<string, Json>, key: string, subject: Json) {
    subject == if key in params then params[key] else Object(params)
  }

  lemma UpdatePerformed(points: map<string, Point>, names: set<string>, accepts: U.Accepts, foreign: Foreign,
                        name: string, params: map<string, Json>, update: map<string, Json>, n: string)
    requires About(params, "update", Object(update)) && forall m :: m in update ==> ToScalar(update[m]).Some?
    requires n in points
    ensures var (after, outcome) := Perform(points, names, accepts, foreign, ServerUpdatePoints, name, params);
            && after.Keys == points.Keys && outcome.Ok? && outcome.value.Updated?
            && Done(points[n], after[n], n in update && n !in names,
                    if n in update then ToScalar(update[n]) else None, accepts)
            && (after[n].value != points[n].value <==>
                n in outcome.value.replies && outcome.value.replies[n] == U.Changed(points[n].value, after[n].value))
  {
    U.ChangedExactly(points, names, ToUpdate(Object(update)).value, accepts, n);
  }

  /** A point after an update: with the value its scalar stands for if it was named, open, scalar and accepted
      it, and otherwise as it was. */
  ghost predicate Done(before: Point, after: Point, open: bool, scalar: Option<Scalar>, accepts: U.Accepts) {
    if open && scalar.Some? && before.id.kind != Schedule
       && accepts(before.id, U.Desired(before.id.kind, scalar.value))
    then after == before.(value := U.Desired(before.id.kind, scalar.value))
    else after == before
  }

  /** An update of points, wrapped or bare: every open, scalar point that is named and accepts its value holds it
      afterwards, nothing else changes, and the ack says changed, from which value to which, exactly for the
      points whose value differs. */
  lemma UpdateIsDone(points: map<string, Point>, names: set<string>, accepts: U.Accepts, foreign: Foreign,
                     payload: Payload, params: map<string, Json>, update: map<string, Json>)
    requires Dispatches(foreign) && Carries(payload, "server_update_points", params)
    requires About(params, "update", Object(update)) && forall n :: n in update ==> ToScalar(update[n]).Some?
    ensures var (after, ack) := Answer(points, names, accepts, foreign, ParseCommand(payload, foreign));
            && after.Keys == points.Keys && ack.outcome.Ok? && ack.outcome.value.Updated?
            && forall n :: n in points ==>
                 && Done(points[n], after[n], n in update && n !in names,
                         if n in update then ToScalar(update[n]) else None, accepts)
                 && (after[n].value != points[n].value <==>
                     n in ack.outcome.value.replies
                     && ack.outcome.value.replies[n] == U.Changed(points[n].value, after[n].value))
  {
    Reaches(payload, foreign, "server_update_points", params);
    WritersHaveOneName("server_update_points");
    forall n | n in points {
      UpdatePerformed(points, names, accepts, foreign, "server_update_points", params, update, n);
    }
  }

  /** Anything but an object of scalars is refused. */
  lemma UpdateIsRefused(points: map<string, Point>, names: set<string>, accepts: U.Accepts, foreign: Foreign,
                        payload: Payload, params: map<string, Json>, subject: Json)
    requires Dispatches(foreign) && Carries(payload, "server_update_points", params)
    requires About(params, "update", subject)
    requires !subject.Object? || exists n :: n in subject.fields && ToScalar(subject.fields[n]).None?
    ensures var (after, ack) := Answer(points, names, accepts, foreign, ParseCommand(payload, foreign));
            after == points && ack.outcome == Err(Invalid)
  {
    Reaches(payload, foreign, "server_update_points", params);
    WritersHaveOneName("server_update_points");
  }

  /** The two read-outs: the points selected as commandable, as they read out, and all points but schedules. */
  lemma ReadsAreAnswered(points: map<string, Point>, names: set<string>, accepts: U.Accepts, foreign: Foreign,
                         payload: Payload, name: string, params: map<string, Json>)
    requires Dispatches(foreign) && Carries(payload, name, params)
    ensures var ack := Answer(points, names, accepts, foreign, ParseCommand(payload, foreign)).1;
            && ack.name == Some(name)
            && (name == "server_hello" ==> ack.outcome == Ok(Hello))
            && (name == "server_read_commandable" ==>
                  ack.outcome == Ok(Commandables(map n | n in points && L.SelectedByType(points[n], n, names) ::
                                                   Show(points[n].id.kind, points[n].value))))
            && (name == "server_read_all_values" ==>
                  ack.outcome == Ok(Values(map n | n in points && points[n].id.kind != Schedule :: points[n].value)))
  {
    Reaches(payload, foreign, name, params);
    MethodNames(name);
    assert ScalarValues(points) == map n | n in points && points[n].id.kind != Schedule :: points[n].value;
  }

  /** Reading a schedule: the schedule, if its answer can be rendered, or why there is none. */
  lemma ScheduleIsRead(points: map<string, Point>, names: set<string>, accepts: U.Accepts, foreign: Foreign,
                       payload: Payload, params: map<string, Json>, request: Json, n: string)
    requires Dispatches(foreign) && Carries(payload, "server_read_schedule", params)
    requires About(params, "request", request) && foreign.nameRequest(request) == Some(n)
    ensures var outcome := Answer(points, names, accepts, foreign, ParseCommand(payload, foreign)).1.outcome;
            && (n !in points ==> outcome == Ok(ScheduleReply(n, Missing)))
            && (n in points && points[n].id.kind != Schedule ==> outcome == Ok(ScheduleReply(n, NotSchedule)))
            && (n in points && points[n].id.kind == Schedule ==>
                  outcome == if foreign.renders(points[n].value) then Ok(ScheduleReply(n, Found(points[n])))
                             else Err(Interrupted))
  {
    Reaches(payload, foreign, "server_read_schedule", params);
    MethodNames("");
  }

  /** Updating a schedule that takes everything: it holds what was asked for, with the default as its present
      value, nothing else changes, and the ack shows it. */
  lemma ScheduleIsUpdated(points: map<string, Point>, names: set<string>, accepts: U.Accepts, foreign: Foreign,
                          payload: Payload, params: map<string, Json>, update: Json, req: U.ScheduleRequest)
    requires Dispatches(foreign) && Carries(payload, "server_update_schedule", params)
    requires About(params, "update", update) && foreign.scheduleRequest(update) == Some(req)
    requires req.weekly.Some? ==> |req.weekly.value| == 7
    requires U.IsSchedule(points, req.name)
    requires (forall a :: foreign.takes(points[req.name].id, a)) && forall v :: foreign.renders(v)
    ensures var (after, ack) := Answer(points, names, accepts, foreign, ParseCommand(payload, foreign));
            var v := points[req.name].value;
            var default := if req.default.Some? then U.ToNumber(req.default.value) else v.default;
            var week := if req.weekly.Some? then req.weekly.value else v.weekly;
            && after == points[req.name := points[req.name].(value := Plan(default, default, week))]
            && ack.outcome == Ok(ScheduleReply(req.name, Found(after[req.name])))
  {
    Reaches(payload, foreign, "server_update_schedule", params);
    WritersHaveOneName("server_update_schedule");
    U.CompleteIsReplan(points, req, foreign.takes);
  }

  /** A schedule update that cannot be read, or whose week has not seven days, is refused; one that an object
      stops is interrupted, with the assignments before that left in place. */
  lemma ScheduleIsStopped(points: map<string, Point>, names: set<string>, accepts: U.Accepts, foreign: Foreign,
                          payload: Payload, params: map<string, Json>, update: Json)
    requires Dispatches(foreign) && Carries(payload, "server_update_schedule", params)
    requires About(params, "update", update)
    ensures var (after, ack) := Answer(points, names, accepts, foreign, ParseCommand(payload, foreign));
            match foreign.scheduleRequest(update)
            case None => after == points && ack.outcome == Err(Invalid)
            case Some(req) =>
              if req.weekly.Some? && |req.weekly.value| != 7 then after == points && ack.outcome == Err(Invalid)
              else
                && after == U.AfterSchedule(points, req, foreign.takes)
                && (!U.Completes(points, req, foreign.takes) ==> ack.outcome == Err(Interrupted))
  {
    Reaches(payload, foreign, "server_update_schedule", params);
    WritersHaveOneName("server_update_schedule");
  }

  /** A schedule update for a name that is no schedule changes nothing and says why. */
  lemma NoScheduleToUpdate(points: map<string, Point>, names: set<string>, accepts: U.Accepts, foreign: Foreign,
                           payload: Payload, params: map<string, Json>, update: Json, req: U.ScheduleRequest)
    requires Dispatches(foreign) && Carries(payload, "server_update_schedule", params)
    requires About(params, "update", update) && foreign.scheduleRequest(update) == Some(req)
    requires req.weekly.Some? ==> |req.weekly.value| == 7
    requires req.name !in points || points[req.name].id.kind != Schedule
    ensures var (after, ack) := Answer(points, names, accepts, foreign, ParseCommand(payload, foreign));
            after == points
            && ack.outcome == Ok(ScheduleReply(req.name, if req.name in points then NotSchedule else Missing))
  {
    Reaches(payload, foreign, "server_update_schedule", params);
    WritersHaveOneName("server_update_schedule");
  }

  /** A client method gets its name and parameters, and its reply or failure is the answer. */
  lemma ClientIsAnswered(points: map<string, Point>, names: set<string>, accepts: U.Accepts, foreign: Foreign,
                         payload: Payload, name: string, params: map<string, Json>)
    requires Dispatches(foreign) && Carries(payload, name, params) && name in CLIENT_NAMES
    ensures Answer(points, names, accepts, foreign, ParseCommand(payload, foreign)).1.outcome ==
            match foreign.client(name, Object(params))
            case Ok(reply) => Ok(FromClient(reply))
            case Err(e) => Err(Raised(e))
  {
    Reaches(payload, foreign, name, params);
    ClientNames(name);
  }

  /** A method name is unknown exactly when it is none of the fourteen documented ones. */
  lemma UnknownIff(points: map<string, Point>, names: set<string>, accepts: U.Accepts, foreign: Foreign,
                   payload: Payload, name: string, params: map<string, Json>)
    requires Dispatches(foreign) && Carries(payload, name, params)
    ensures var outcome := Answer(points, names, accepts, foreign, ParseCommand(payload, foreign)).1.outcome;
            outcome == Err(UnknownMethod(name)) <==>
            && name !in {"server_hello", "server_update_points", "server_read_commandable",
                         "server_read_all_values", "server_read_schedule", "server_update_schedule"}
            && name !in {"client_read_property", "client_write_property", "client_read_multiple",
                         "client_whois_range", "client_point_discovery", "client_supervisory_logic_checks",
                         "client_read_point_priority_array", "client_whois_router_to_network"}
  {
    Reaches(payload, foreign, name, params);
  }

  /** No command, with whatever method and parameters, touches a protected point that is not a schedule. */
  lemma ProtectedFromCommands(points: map<string, Point>, names: set<string>, accepts: U.Accepts,
                              foreign: Foreign, command: Command, n: string)
    requires n in points && n in names && !points[n].id.kind.Schedule?
    ensures var after := Answer(points, names, accepts, foreign, command).0;
            n in after && after[n] == points[n]
  {
    if command.Call? && command.which.Some? {
      ProtectedFromMethods(points, names, accepts, foreign, command.which.value, command.name, command.params, n);
    }
  }

  lemma ProtectedFromMethods(points: map<string, Point>, names: set<string>, accepts: U.Accepts,
                             foreign: Foreign, which: Method, name: string, params: map<string, Json>, n: string)
    requires n in points && n in names && !points[n].id.kind.Schedule?
    ensures var after := Perform(points, names, accepts, foreign, which, name, params).0;
            n in after && after[n] == points[n]
  {}

  /** No command adds, removes or renames a point. */
  lemma CommandsKeepPoints(points: map<string, Point>, names: set<string>, accepts: U.Accepts,
                           foreign: Foreign, command: Command)
    ensures U.SamePoints(points, Answer(points, names, accepts, foreign, command).0)
  {
    if command.Call? && command.which.Some? {
      MethodsKeepPoints(points, names, accepts, foreign, command.which.value, command.name, command.params);
    }
  }

  lemma MethodsKeepPoints(points: map<string, Point>, names: set<string>, accepts: U.Accepts,
                          foreign: Foreign, which: Method, name: string, params: map<string, Json>)
    ensures U.SamePoints(points, Perform(points, names, accepts, foreign, which, name, params).0)
  {}

  lemma CommandsKeepFit(points: map<string, Point>, names: set<string>, accepts: U.Accepts, foreign: Foreign,
                        command: Command)
    requires U.AllFit(points)
    ensures U.AllFit(Answer(points, names, accepts, foreign, command).0)
  {
    var req := ScheduleUpdate(command, foreign);
    if req.Some? && U.SevenDays(req.value) {
      U.ScheduleKeepsFit(points, req.value, foreign.takes);
    }
  }

  /** Runs one method against the registry. */
  method Execute(registry: Registry.PointRegistry, accepts: U.Accepts, foreign: Foreign,
                 which: Method, name: string, params: map<string, Json>) returns (outcome: Result<Body, Failure>)
    requires registry.Valid()
    modifies registry.pointMap.Values
    ensures var (after, out) :=
              Perform(old(registry.View()), registry.commandableNames, accepts, foreign, which, name, params);
            registry.View() == after && outcome == out
  {
    match which {
      case ServerUpdatePoints =>
        var update := ToUpdate(Argument(params, "update"));
        if update.None? {
          return Err(Invalid);
        }
        var replies := registry.UpdatePoints(update.value, accepts);
        return Ok(Updated(replies));
      case ServerReadCommandable =>
        var values := registry.ReadCommandable();
        return Ok(Commandables(values));
      case ServerUpdateSchedule =>
        var req := foreign.scheduleRequest(Argument(params, "update"));
        if req.None? || !U.SevenDays(req.value) {
          return Err(Invalid);
        }
        var complete := registry.UpdateSchedule(req.value, foreign.takes);
        if !complete {
          return Err(Interrupted);
        }
        return ScheduleAnswer(registry.View(), req.value.name, foreign);
      case _ =>
        return Perform(registry.View(), registry.commandableNames, accepts, foreign, which, name, params).1;
    }
  }

  /** Handles one command against the registry. */
  method Handle(registry: Registry.PointRegistry, accepts: U.Accepts, foreign: Foreign, command: Command)
    returns (ack: Ack)
    requires registry.Valid()
    modifies registry.pointMap.Values
    ensures (registry.View(), ack) == Answer(old(registry.View()), registry.commandableNames, accepts, foreign, command)
  {
    match command {
      case Malformed(correlation, defect) =>
        ack := Envelope(correlation, None, Err(ParseError(defect)));
      case Call(correlation, name, which, params) =>
        var outcome;
        if which.None? {
          outcome := Err(UnknownMethod(name));
        } else {
          outcome := Execute(registry, accepts, foreign, which.value, name, params);
        }
        ack := Envelope(correlation, Some(name), outcome);
    }
  }

  /** A history of a session: the state before each command and after the last, and what each was answered. */
  ghost predicate Answered(trace: seq<map<string, Point>>, answers: seq<Ack>, names: set<string>,
                           accepts: U.Accepts, foreign: Foreign, payloads: seq<Payload>)
  {
    && |trace| == |answers| + 1 && |answers| <= |payloads|
    && forall i {:trigger answers[i]} :: 0 <= i < |answers| ==>
         (trace[i + 1], answers[i]) == Answer(trace[i], names, accepts, foreign, ParseCommand(payloads[i], foreign))
  }

  /** One session: a command is handled, then its ack is published; a failed publication ends the session.
      `sends(i)` is whether publication `i` succeeds. */
  method RunSession(registry: Registry.PointRegistry, accepts: U.Accepts, foreign: Foreign,
                    payloads: seq<Payload>, sends: nat -> bool)
    returns (acks: seq<Ack>, ghost trace: seq<map<string, Point>>, ghost answers: seq<Ack>)
    requires registry.Valid()
    modifies registry.pointMap.Values
    ensures Answered(trace, answers, registry.commandableNames, accepts, foreign, payloads)
    ensures trace[0] == old(registry.View()) && trace[|answers|] == registry.View()
    ensures acks <= answers && |answers| - |acks| <= 1
    ensures |answers| < |payloads| ==> |answers| == |acks| + 1
    ensures forall i :: 0 <= i < |acks| ==> sends(i)
    ensures |acks| < |answers| ==> !sends(|acks|)
  {
    acks, answers, trace := [], [], [registry.View()];
    for handled := 0 to |payloads|
      invariant |answers| == handled && acks == answers
      invariant Answered(trace, answers, registry.commandableNames, accepts, foreign, payloads)
      invariant trace[0] == old(registry.View()) && trace[handled] == registry.View()
      invariant forall i :: 0 <= i < |acks| ==> sends(i)
    {
      var ack := Handle(registry, accepts, foreign, ParseCommand(payloads[handled], foreign));
      answers, trace := answers + [ack], trace + [registry.View()];
      if !sends(handled) {
        return;
      }
      acks := acks + [ack];
    }
  }
}
