/** What a point update does to the hosted points, point by point. The order in which the names of an
    update are visited does not appear here: it turns out not to matter. */
module Updates {

  import opened Wrappers
  import opened Points

  datatype Reply = Skipped | NotFound | Changed(from: Value, to: Value) | Unsupported | Failed

  /** Whether a point's present value may be set to a value; objects reject some. */
  type Accepts = (Ident, Value) -> bool

  function ToReal(s: Scalar): real {
    match s
    case Int(i) => i as real
    case Real(r) => r
    case Bool(b) => if b then 1.0 else 0.0
  }

  /** Conversion to an integer drops the fraction, toward zero. */
  function Truncate(s: Scalar): (t: int)
    ensures ToReal(s) >= 0.0 ==> 0.0 <= t as real <= ToReal(s) < t as real + 1.0
    ensures ToReal(s) <= 0.0 ==> t as real - 1.0 < ToReal(s) <= t as real <= 0.0
  {
    match s
    case Int(i) => i
    case Real(r) => if r >= 0.0 then r.Floor else -(-r).Floor
    case Bool(b) => if b then 1 else 0
  }

  function Desired(k: Kind, s: Scalar): Value {
    if IsAnalog(k) then Analog(ToReal(s))
    else if IsBinary(k) then Binary(ToReal(s) == 1.0)
    else States(Truncate(s))
  }

  /** The value a scalar stands for: true counts as 1 and false as 0, a binary point is active for 1 alone, and
      a multi-state point drops the fraction. */
  lemma DesiredMeans(k: Kind, s: Scalar)
    ensures k in {AnalogInput, AnalogOutput, AnalogValue} ==>
              && (s.Int? ==> Desired(k, s) == Analog(s.i as real)) && (s.Real? ==> Desired(k, s) == Analog(s.r))
              && (s.Bool? ==> Desired(k, s) == Analog(if s.b then 1.0 else 0.0))
    ensures k in {BinaryInput, BinaryOutput, BinaryValue} ==>
              Desired(k, s) == Binary(s == Int(1) || s == Real(1.0) || s == Bool(true))
    ensures k in {MultiStateInput, MultiStateOutput, MultiStateValue} ==>
              var v := Desired(k, s);
              && v.States? && (s.Int? ==> v.state == s.i) && (s.Bool? ==> v.state == if s.b then 1 else 0)
              && (s.Real? && s.r >= 0.0 ==> v.state as real <= s.r < v.state as real + 1.0)
              && (s.Real? && s.r < 0.0 ==> v.state as real - 1.0 < s.r <= v.state as real)
  {}

  /** The reply for a name whose point exists and is not protected; none when nothing needs to change. */
  function PokeReply(p: Point, s: Scalar, accepts: Accepts): Option<Reply> {
    if p.id.kind.Schedule? then Some(Unsupported)
    else
      var v := Desired(p.id.kind, s);
      if v == p.value then None
      else if !accepts(p.id, v) then Some(Failed)
      else Some(Changed(p.value, v))
  }

  function Poke(p: Point, s: Scalar, accepts: Accepts): Point {
    var reply := PokeReply(p, s, accepts);
    if reply.Some? && reply.value.Changed? then p.(value := reply.value.to) else p
  }

  function ReplyTo(points: map<string, Point>, names: set<string>, n: string, s: Scalar, accepts: Accepts)
    : Option<Reply>
  {
    if n in names then Some(Skipped)
    else if n !in points then Some(NotFound)
    else PokeReply(points[n], s, accepts)
  }

  function AfterUpdate(points: map<string, Point>, names: set<string>, update: map<string, Scalar>,
                       accepts: Accepts): map<string, Point>
  {
    map n | n in points ::
      if n in update && n !in names then Poke(points[n], update[n], accepts) else points[n]
  }

  function Replies(points: map<string, Point>, names: set<string>, update: map<string, Scalar>,
                   accepts: Accepts): map<string, Reply>
  {
    map n | n in update && ReplyTo(points, names, n, update[n], accepts).Some? ::
      ReplyTo(points, names, n, update[n], accepts).value
  }

  /** Which reply each name of an update gets. Two outcomes are not in the documented list: no entry at all
      for a point whose value is already right, and an entry of its own kind for a schedule. */
  lemma RepliesExactly(points: map<string, Point>, names: set<string>, update: map<string, Scalar>,
                       accepts: Accepts, n: string)
    ensures var replies := Replies(points, names, update, accepts);
            var open := n in update && n !in names;
            var there := open && n in points;
            var writes := there && !points[n].id.kind.Schedule?
                          && Desired(points[n].id.kind, update[n]) != points[n].value;
            && (n in replies && replies[n].Skipped? <==> n in update && n in names)
            && (n in replies && replies[n].NotFound? <==> open && n !in points)
            && (n in replies && replies[n].Unsupported? <==> there && points[n].id.kind.Schedule?)
            && (n in replies && (replies[n].Changed? || replies[n].Failed?) <==> writes)
            && (n in update && n !in replies <==>
                there && !points[n].id.kind.Schedule? && Desired(points[n].id.kind, update[n]) == points[n].value)
  {
    var replies := Replies(points, names, update, accepts);
    if n in update {
      assert n in replies <==> ReplyTo(points, names, n, update[n], accepts).Some?;
    }
  }

  /** Both of them at once: an analog value that is already right, and a schedule. */
  lemma UndocumentedReplies(accepts: Accepts)
    ensures var points := map["flow" := Point(Ident(AnalogValue, 1), false, Analog(20.0)),
                              "plan" := Point(Ident(Schedule, 1), false, Plan(Integer(0), Integer(0), DEFAULT_WEEK))];
            Replies(points, {}, map["flow" := Int(20), "plan" := Int(1)], accepts) == map["plan" := Unsupported]
  {
    var points := map["flow" := Point(Ident(AnalogValue, 1), false, Analog(20.0)),
                      "plan" := Point(Ident(Schedule, 1), false, Plan(Integer(0), Integer(0), DEFAULT_WEEK))];
    RepliesExactly(points, {}, map["flow" := Int(20), "plan" := Int(1)], accepts, "flow");
    RepliesExactly(points, {}, map["flow" := Int(20), "plan" := Int(1)], accepts, "plan");
  }

  /** A BACnet client writes a present value; the stack keeps out values of another type. */
  function AfterWrite(points: map<string, Point>, n: string, v: Value): map<string, Point> {
    if n in points && Fits(points[n].id.kind, v) then points[n := points[n].(value := v)] else points
  }

  /** The same names for the same objects; only values may differ. */
  predicate SamePoints(before: map<string, Point>, after: map<string, Point>) {
    && before.Keys == after.Keys
    && forall n :: n in before ==>
         after[n].id == before[n].id && after[n].commandable == before[n].commandable
  }

  /** "Changed" is reported exactly for the points whose value differs afterwards, with both values; such a
      point was named, present, unprotected, scalar, and took the value that the scalar stands for. */
  lemma ChangedExactly(points: map<string, Point>, names: set<string>, update: map<string, Scalar>,
                       accepts: Accepts, n: string)
    requires n in points
    ensures var after := AfterUpdate(points, names, update, accepts)[n];
            var replies := Replies(points, names, update, accepts);
            && after.id == points[n].id && after.commandable == points[n].commandable
            && (after.value != points[n].value <==> n in replies && replies[n].Changed?)
            && (after.value != points[n].value ==>
                  && n in update && n !in names && !points[n].id.kind.Schedule?
                  && after.value == Desired(points[n].id.kind, update[n])
                  && accepts(points[n].id, after.value)
                  && replies[n] == Changed(points[n].value, after.value))
  {
    var replies := Replies(points, names, update, accepts);
    if n in update {
      assert n in replies <==> ReplyTo(points, names, n, update[n], accepts).Some?;
    }
  }

  /** Applying the same update again changes nothing and reports no change. */
  lemma Reapply(points: map<string, Point>, names: set<string>, update: map<string, Scalar>, accepts: Accepts)
    ensures var once := AfterUpdate(points, names, update, accepts);
            && AfterUpdate(once, names, update, accepts) == once
            && forall n :: n in Replies(once, names, update, accepts) ==>
                 !Replies(once, names, update, accepts)[n].Changed?
  {
    var once := AfterUpdate(points, names, update, accepts);
    forall n | n in points ensures AfterUpdate(once, names, update, accepts)[n] == once[n] {}
  }

  /** An update may be split into parts that name different points, and the parts applied in any order. */
  lemma SplitUpdate(points: map<string, Point>, names: set<string>, a: map<string, Scalar>,
                    b: map<string, Scalar>, accepts: Accepts)
    requires a.Keys !! b.Keys
    ensures AfterUpdate(AfterUpdate(points, names, a, accepts), names, b, accepts)
         == AfterUpdate(points, names, a + b, accepts)
         == AfterUpdate(AfterUpdate(points, names, b, accepts), names, a, accepts)
  {}

  /** The replies to the parts are those to the whole. */
  lemma SplitReplies(points: map<string, Point>, names: set<string>, a: map<string, Scalar>,
                     b: map<string, Scalar>, accepts: Accepts)
    requires a.Keys !! b.Keys
    ensures Replies(points, names, a + b, accepts)
         == Replies(points, names, a, accepts)
            + Replies(AfterUpdate(points, names, a, accepts), names, b, accepts)
  {
    var mid := AfterUpdate(points, names, a, accepts);
    forall n | n in b
      ensures ReplyTo(mid, names, n, b[n], accepts) == ReplyTo(points, names, n, b[n], accepts)
    {}
  }

  /** One more name, not yet visited, on top of a part of an update. */
  lemma OneMoreName(points: map<string, Point>, names: set<string>, done: map<string, Scalar>, n: string,
                    s: Scalar, accepts: Accepts)
    requires n !in done
    ensures AfterUpdate(AfterUpdate(points, names, done, accepts), names, map[n := s], accepts)
         == AfterUpdate(points, names, done[n := s], accepts)
    ensures var reply := ReplyTo(AfterUpdate(points, names, done, accepts), names, n, s, accepts);
            Replies(points, names, done[n := s], accepts) ==
            if reply.Some? then Replies(points, names, done, accepts)[n := reply.value]
            else Replies(points, names, done, accepts)
  {
    assert done + map[n := s] == done[n := s];
    SplitUpdate(points, names, done, map[n := s], accepts);
    SplitReplies(points, names, done, map[n := s], accepts);
    var mid := AfterUpdate(points, names, done, accepts);
    assert ReplyTo(mid, names, n, s, accepts) == ReplyTo(points, names, n, s, accepts);
  }

  lemma EmptyUpdate(points: map<string, Point>, names: set<string>, accepts: Accepts)
    ensures AfterUpdate(points, names, map[], accepts) == points
    ensures Replies(points, names, map[], accepts) == map[]
  {}

  lemma TakeName(update: map<string, Scalar>, todo: set<string>, name: string)
    requires name in todo && name in update
    ensures name !in update - todo && (update - todo)[name := update[name]] == update - (todo - {name})
  {}

  // ---------- schedules ----------

  /** A request with the entries of its days already in the form the object stores. */
  datatype ScheduleRequest =
    ScheduleRequest(name: string, default: Option<Scalar>, weekly: Option<seq<seq<TimeEntry>>>)

  function ToNumber(s: Scalar): Number {
    match s
    case Int(i) => Integer(i)
    case Real(r) => Float(r)
    case Bool(b) => Integer(if b then 1 else 0)
  }

  function Replan(v: Value, req: ScheduleRequest): Value
    requires v.Plan?
  {
    var default := if req.default.Some? then ToNumber(req.default.value) else v.default;
    Plan(default, default, if req.weekly.Some? then req.weekly.value else v.weekly)
  }

  /** A number keeps its type, and true and false become 1 and 0. */
  lemma NumberMeans(i: int, r: real)
    ensures ToNumber(Int(i)) == Integer(i) && ToNumber(Real(r)) == Float(r)
    ensures ToNumber(Bool(true)) == Integer(1) && ToNumber(Bool(false)) == Integer(0)
  {}

  predicate SevenDays(req: ScheduleRequest) {
    req.weekly.Some? ==> |req.weekly.value| == 7
  }

  /** One assignment of a schedule update. */
  datatype Assignment = ToDefault(n: Number) | ToWeek(week: seq<seq<TimeEntry>>) | ToPresent(n: Number)

  /** Whether an object takes an assignment; objects may refuse some. */
  type Takes = (Ident, Assignment) -> bool

  /** The assignments of an update in program order: what was asked for, then the present value. */
  function Assignments(v: Value, req: ScheduleRequest): seq<Assignment>
    requires v.Plan?
  {
    (if req.default.Some? then [ToDefault(ToNumber(req.default.value))] else [])
    + (if req.weekly.Some? then [ToWeek(req.weekly.value)] else [])
    + [ToPresent(Replan(v, req).default)]
  }

  function Assign(v: Value, a: Assignment): (w: Value)
    requires v.Plan?
    ensures w.Plan?
  {
    match a
    case ToDefault(n) => v.(default := n)
    case ToWeek(week) => v.(weekly := week)
    case ToPresent(n) => v.(present := n)
  }

  function AssignAll(v: Value, assignments: seq<Assignment>): (w: Value)
    requires v.Plan?
    ensures w.Plan?
    decreases |assignments|
  {
    if assignments == [] then v else AssignAll(Assign(v, assignments[0]), assignments[1..])
  }

  /** The assignments before the first that the object refuses. */
  function Taken(id: Ident, assignments: seq<Assignment>, takes: Takes): (n: nat)
    ensures n <= |assignments| && (n < |assignments| ==> !takes(id, assignments[n]))
    ensures forall i :: 0 <= i < n ==> takes(id, assignments[i])
  {
    if assignments == [] || !takes(id, assignments[0]) then 0 else 1 + Taken(id, assignments[1..], takes)
  }

  predicate IsSchedule(points: map<string, Point>, n: string) {
    n in points && points[n].id.kind.Schedule? && points[n].value.Plan?
  }

  /** A refused assignment ends the update; earlier ones stay. */
  function AfterSchedule(points: map<string, Point>, req: ScheduleRequest, takes: Takes): map<string, Point> {
    if IsSchedule(points, req.name) then
      var p := points[req.name];
      var assignments := Assignments(p.value, req);
      points[req.name := p.(value := AssignAll(p.value, assignments[..Taken(p.id, assignments, takes)]))]
    else points
  }

  predicate Completes(points: map<string, Point>, req: ScheduleRequest, takes: Takes) {
    IsSchedule(points, req.name) ==>
      var p := points[req.name];
      Taken(p.id, Assignments(p.value, req), takes) == |Assignments(p.value, req)|
  }

  /** An update that completes does what it means: it sets what was asked for, and the present value becomes
      the default. */
  lemma CompleteIsReplan(points: map<string, Point>, req: ScheduleRequest, takes: Takes)
    requires IsSchedule(points, req.name) && Completes(points, req, takes)
    ensures AfterSchedule(points, req, takes)[req.name].value == Replan(points[req.name].value, req)
  {
    var v := points[req.name].value;
    var assignments := Assignments(v, req);
    assert assignments[..|assignments|] == assignments;
    AssignStep(v, assignments);
    if |assignments| > 1 {
      AssignStep(Assign(v, assignments[0]), assignments[1..]);
    }
  }

  lemma AssignStep(v: Value, assignments: seq<Assignment>)
    requires v.Plan? && assignments != []
    ensures AssignAll(v, assignments) == AssignAll(Assign(v, assignments[0]), assignments[1..])
  {}

  /** A week of seven days and a default, all taken: the schedule holds both, and its present value is the
      default. */
  lemma ScheduleIsSet(points: map<string, Point>, n: string, default: Scalar, week: seq<seq<TimeEntry>>, takes: Takes)
    requires IsSchedule(points, n) && |week| == 7
    requires forall a :: takes(points[n].id, a)
    ensures var req := ScheduleRequest(n, Some(default), Some(week));
            && SevenDays(req) && Completes(points, req, takes)
            && AfterSchedule(points, req, takes) ==
               points[n := points[n].(value := Plan(ToNumber(default), ToNumber(default), week))]
  {
    CompleteIsReplan(points, ScheduleRequest(n, Some(default), Some(week)), takes);
  }

  /** Taking the assignments one by one. */
  lemma TakenInOrder(id: Ident, v: Value, assignments: seq<Assignment>, takes: Takes)
    requires v.Plan?
    ensures var n := Taken(id, assignments, takes);
            if assignments == [] || !takes(id, assignments[0])
            then n == 0 && AssignAll(v, assignments[..n]) == v
            else n == 1 + Taken(id, assignments[1..], takes)
                 && AssignAll(v, assignments[..n])
                    == AssignAll(Assign(v, assignments[0]), assignments[1..][..n - 1])
  {
    var n := Taken(id, assignments, takes);
    if n > 0 {
      assert assignments[..n][1..] == assignments[1..][..n - 1];
    }
  }

  /** The schedule already holds what an assignment sets. */
  predicate Holds(v: Value, a: Assignment)
    requires v.Plan?
  {
    Assign(v, a) == v
  }

  /** An update changes a schedule exactly when some assignment that was taken sets something new. */
  lemma ChangesIff(v: Value, req: ScheduleRequest, n: nat)
    requires v.Plan? && n <= |Assignments(v, req)|
    ensures AssignAll(v, Assignments(v, req)[..n]) != v <==>
            exists i :: 0 <= i < n && !Holds(v, Assignments(v, req)[i])
  {
    var assignments := Assignments(v, req);
    var done := assignments[..n];
    assert forall i :: 0 <= i < n ==> done[i] == assignments[i];
    if n >= 1 {
      AssignStep(v, done);
      assert Holds(v, done[0]) <==> Holds(v, assignments[0]);
    }
    if n >= 2 {
      AssignStep(Assign(v, done[0]), done[1..]);
      assert Holds(v, done[1]) <==> Holds(v, assignments[1]);
    }
    if n >= 3 {
      AssignStep(Assign(Assign(v, done[0]), done[1]), done[1..][1..]);
      assert Holds(v, done[2]) <==> Holds(v, assignments[2]);
    }
  }

  /** A refused week leaves the new default behind, with the old present value. */
  lemma InterruptedSchedule()
    ensures var plan := Plan(Integer(0), Integer(0), DEFAULT_WEEK);
            var points := map["plan" := Point(Ident(Schedule, 1), false, plan)];
            var req := ScheduleRequest("plan", Some(Int(5)), Some(DEFAULT_WEEK));
            var takes: Takes := (id, a: Assignment) => !a.ToWeek?;
            && !Completes(points, req, takes)
            && AfterSchedule(points, req, takes)["plan"].value == plan.(default := Integer(5))
  {
    var plan := Plan(Integer(0), Integer(0), DEFAULT_WEEK);
    var req := ScheduleRequest("plan", Some(Int(5)), Some(DEFAULT_WEEK));
    var takes: Takes := (id, a: Assignment) => !a.ToWeek?;
    var assignments := Assignments(plan, req);
    assert takes(Ident(Schedule, 1), assignments[0]) && !takes(Ident(Schedule, 1), assignments[1]);
    assert Taken(Ident(Schedule, 1), assignments, takes) == 1;
    AssignStep(plan, assignments[..1]);
  }

  /** Every present value has the type of its point. */
  ghost predicate AllFit(points: map<string, Point>) {
    forall n :: n in points ==> Fits(points[n].id.kind, points[n].value)
  }

  lemma {:induction false} AssignAllFits(k: Kind, v: Value, assignments: seq<Assignment>)
    requires v.Plan? && Fits(k, v)
    requires forall a :: a in assignments && a.ToWeek? ==> |a.week| == 7
    ensures Fits(k, AssignAll(v, assignments))
    decreases |assignments|
  {
    if assignments != [] {
      assert assignments[0] in assignments;
      AssignAllFits(k, Assign(v, assignments[0]), assignments[1..]);
    }
  }

  lemma ScheduleKeepsFit(points: map<string, Point>, req: ScheduleRequest, takes: Takes)
    requires AllFit(points) && SevenDays(req)
    ensures AllFit(AfterSchedule(points, req, takes))
  {
    if IsSchedule(points, req.name) {
      var p := points[req.name];
      var assignments := Assignments(p.value, req);
      AssignAllFits(p.id.kind, p.value, assignments[..Taken(p.id, assignments, takes)]);
    }
  }

  /** Default and week are independent: sending them apart, in either order, is sending them together, and
      the present value always ends as the default. */
  lemma ReplanInParts(v: Value, name: string, default: Scalar, week: seq<seq<TimeEntry>>)
    requires v.Plan?
    ensures var d, w := ScheduleRequest(name, Some(default), None), ScheduleRequest(name, None, Some(week));
            && Replan(Replan(v, d), w) == Replan(Replan(v, w), d)
                 == Replan(v, ScheduleRequest(name, Some(default), Some(week)))
            && Replan(Replan(v, d), w).present == ToNumber(default)
  {}
}
