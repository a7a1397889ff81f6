/** The registry of hosted points as the program keeps it: a map from names to objects whose present
    value is written in place, and the set of names the update paths must skip. */
module Registry {

  import opened Wrappers
  import opened Points
  import C = Cursors
  import L = LoaderSpec
  import U = Updates

  class PointObject {
    const id: Ident
    const commandable: bool
    var presentValue: Value

    constructor (id: Ident, commandable: bool, initial: Value)
      ensures State() == Point(id, commandable, initial)
    {
      this.id, this.commandable, this.presentValue := id, commandable, initial;
    }

    function State(): Point
      reads this
    {
      Point(id, commandable, presentValue)
    }

    /** Writes a scalar unless the kind has none, the value is already there, or the object rejects it. */
    method Set(s: Scalar, accepts: U.Accepts) returns (reply: Option<U.Reply>)
      modifies this
      ensures State() == U.Poke(old(State()), s, accepts)
      ensures reply == U.PokeReply(old(State()), s, accepts)
    {
      if id.kind.Schedule? {
        return Some(U.Unsupported);
      }
      reply := None;
      var desired, current := U.Desired(id.kind, s), presentValue;
      if current != desired {
        if accepts(id, desired) {
          presentValue := desired;
          reply := Some(U.Changed(current, desired));
        } else {
          reply := Some(U.Failed);
        }
      }
    }

    /** The present value as the read-out shows it. */
    method Read() returns (shown: ReadOut)
      ensures shown == Show(id.kind, presentValue)
    {
      shown := Unreadable;
      if IsAnalog(id.kind) {
        if presentValue.Analog? {
          shown := AsFloat(presentValue.level);
        }
      } else if IsBinary(id.kind) {
        if presentValue.Binary? {
          shown := AsText(if presentValue.active then "active" else "inactive");
        }
      } else if presentValue.States? {
        shown := AsInteger(presentValue.state);
      }
    }

    /** The assignments of a schedule update: the default, the week, and the present value last. */
    method Reschedule(req: U.ScheduleRequest, takes: U.Takes) returns (complete: bool)
      requires presentValue.Plan?
      modifies this
      ensures var assignments := U.Assignments(old(presentValue), req);
              && presentValue == U.AssignAll(old(presentValue), assignments[..U.Taken(id, assignments, takes)])
              && (complete <==> U.Taken(id, assignments, takes) == |assignments|)
    {
      ghost var todo := U.Assignments(presentValue, req);
      U.TakenInOrder(id, presentValue, todo, takes);
      if req.default.Some? {
        var default := U.ToNumber(req.default.value);
        if !takes(id, U.ToDefault(default)) {
          return false;
        }
        presentValue := presentValue.(default := default);
        todo := todo[1..];
        U.TakenInOrder(id, presentValue, todo, takes);
      }
      if req.weekly.Some? {
        if !takes(id, U.ToWeek(req.weekly.value)) {
          return false;
        }
        presentValue := presentValue.(weekly := req.weekly.value);
        todo := todo[1..];
        U.TakenInOrder(id, presentValue, todo, takes);
      }
      if !takes(id, U.ToPresent(presentValue.default)) {
        return false;
      }
      presentValue := presentValue.(present := presentValue.default);
      U.TakenInOrder(id, presentValue, todo[1..], takes);
      complete := true;
    }
  }

  const FIRST_NUMBERS: map<Kind, int> := map[
    AnalogInput := 1, AnalogOutput := 1, AnalogValue := 1,
    BinaryInput := 1, BinaryOutput := 1, BinaryValue := 1,
    MultiStateInput := 1, MultiStateOutput := 1, MultiStateValue := 1,
    Schedule := 1]

  lemma EveryKindStartsAtOne(k: Kind)
    ensures k in FIRST_NUMBERS && FIRST_NUMBERS[k] == 1
  {
    match k
    case AnalogInput | AnalogOutput | AnalogValue =>
    case BinaryInput | BinaryOutput | BinaryValue =>
    case MultiStateInput | MultiStateOutput | MultiStateValue =>
    case Schedule =>
  }

  /** Picks the instance number of a row, scanning past reserved ones from the cursor of its kind.
      `steps` counts the iterations of the scan. */
  method AssignNumber(row: Row, cursors: map<Kind, int>, used: set<Ident>)
    returns (next: map<Kind, int>, number: Option<int>, ghost steps: nat)
    requires row.kind.Some? && row.kind.value in cursors
    requires 1 <= cursors[row.kind.value] <= MAX_INSTANCE + 1
    ensures row.instance.Auto? ==>
              var k := row.kind.value;
              var end := C.ScanEnd(k, used, cursors[k]);
              next == cursors[k := C.Past(end)] && number == if end <= MAX_INSTANCE then Some(end) else None
    ensures !row.instance.Auto? ==> next == cursors && number == L.Instance(row, {})
    ensures steps == if row.instance.Auto?
                     then C.ScanEnd(row.kind.value, used, cursors[row.kind.value]) - cursors[row.kind.value]
                     else 0
  {
    next, number, steps := cursors, None, 0;
    var kind := row.kind.value;
    assert cursors == cursors[kind := cursors[kind]];
    match row.instance {
      case NotInteger =>
      case Explicit(n) =>
        if 0 <= n <= MAX_INSTANCE {
          number := Some(n);
        }
      case Auto =>
        while next[kind] <= MAX_INSTANCE && Ident(kind, next[kind]) in used
          invariant next == cursors[kind := cursors[kind] + steps] && next[kind] <= MAX_INSTANCE + 1
          invariant C.ScanEnd(kind, used, cursors[kind]) == C.ScanEnd(kind, used, next[kind])
          decreases MAX_INSTANCE + 1 - next[kind]
        {
          next := next[kind := next[kind] + 1];
          steps := steps + 1;
        }
        if next[kind] <= MAX_INSTANCE {
          number := Some(next[kind]);
          next := next[kind := next[kind] + 1];
        }
    }
  }

  /** The cursors, and the count of scan iterations so far, for the rows already done. */
  ghost predicate Minds(cursors: map<Kind, int>, scans: map<Kind, nat>, done: seq<Row>) {
    forall k: Kind :: k in cursors && k in scans
                      && cursors[k] == C.CursorAfter(done, k) && scans[k] == C.ScanSteps(done, k)
  }

  lemma MindsMore(cursors: map<Kind, int>, scans: map<Kind, nat>, done: seq<Row>, row: Row,
                  next: map<Kind, int>, scans': map<Kind, nat>)
    requires Minds(cursors, scans, done)
    requires forall k: Kind :: k in next && k in scans'
    requires forall k: Kind :: !C.IsAutoRow(row, k) ==> next[k] == cursors[k] && scans'[k] == scans[k]
    requires forall k: Kind :: C.IsAutoRow(row, k) ==>
               var end := C.ScanEnd(k, L.Used(L.Load(done)), cursors[k]);
               next[k] == C.Past(end) && scans'[k] == scans[k] + end - cursors[k]
    ensures Minds(next, scans', done + [row])
  {
    forall k: Kind ensures next[k] == C.CursorAfter(done + [row], k) && scans'[k] == C.ScanSteps(done + [row], k) {
      C.RowMoves(done, row, k);
    }
  }

  /** Identifies one row: the decision of the history, reached with the cursors and the reserved
      identifiers alone. */
  method Identify(row: Row, cursors: map<Kind, int>, used: set<Ident>, ghost done: seq<Row>,
                  ghost scans: map<Kind, nat>)
    returns (next: map<Kind, int>, key: Option<Ident>, ghost scans': map<Kind, nat>)
    requires Minds(cursors, scans, done) && used == L.Used(L.Load(done))
    ensures Minds(next, scans', done + [row])
    ensures key == (var e := L.Decide(L.Load(done), row); if e.Placed? then Some(e.id) else None)
  {
    next, key, scans' := cursors, None, scans;
    if row.name != "" && row.kind.Some? {
      var kind := row.kind.value;
      var number;
      ghost var steps;
      C.DecidedByCursor(done, row);
      next, number, steps := AssignNumber(row, cursors, used);
      scans' := scans[kind := scans[kind] + steps];
      key := if number.Some? then Some(Ident(kind, number.value)) else None;
    }
    MindsMore(cursors, scans, done, row, next, scans');
  }

  class PointRegistry {
    var commandableNames: set<string>
    var pointMap: map<string, PointObject>

    /** Different names never share an object. */
    ghost predicate Valid()
      reads this
    {
      forall m, n :: m in pointMap && n in pointMap && m != n ==> pointMap[m] != pointMap[n]
    }

    function View(): map<string, Point>
      reads this, pointMap.Values
    {
      map n | n in pointMap :: pointMap[n].State()
    }

    constructor ()
      ensures Valid() && commandableNames == {} && pointMap == map[]
    {
      commandableNames, pointMap := {}, map[];
    }

    /** Checks a row that got its identifier and builds its object. The name is protected and the identifier
        reserved before the object is offered to the application, which may refuse it. */
    method Keep(row: Row, key: Ident, used: set<Ident>, ghost e: L.Event) returns (reserved: set<Ident>)
      requires Valid()
      requires e.Placed? && e.row == row && e.id == key && row.kind == Some(key.kind)
      requires e.fate == if key in used then L.Duplicate
                         else if row.CovRejected() then L.CovError
                         else if !row.builds then L.NotBuilt
                         else if !row.admits then L.Refused
                         else L.Registered
      modifies this
      ensures Valid()
      ensures reserved == used + if e.Reserved() then {e.id} else {}
      ensures commandableNames == old(commandableNames) + if e.Protects() then {row.name} else {}
      ensures View() == if e.Kept() then old(View())[row.name := e.Made()] else old(View())
      ensures forall n :: n in pointMap ==>
                (n in old(pointMap) && pointMap[n] == old(pointMap[n])) || fresh(pointMap[n])
    {
      reserved := used;
      if key !in used && !row.CovRejected() && row.builds {
        var obj := new PointObject(key, row.Writeable(), InitialValue(key.kind, row.default));
        if BuiltCommandable(key.kind, row.flag) {
          commandableNames := commandableNames + {row.name};
        }
        reserved := reserved + {key};
        if row.admits {
          pointMap := pointMap[row.name := obj];
        }
      }
    }

    /** The registry and the reserved identifiers, as the history of the load so far explains them. */
    ghost predicate Tracks(log: seq<L.Event>, names: set<string>, base: map<string, Point>, used: set<Ident>)
      reads this, pointMap.Values
    {
      && Valid()
      && used == L.Used(log)
      && commandableNames == names + L.Names(log)
      && View() == base + L.Mapped(log)
    }

    /** One row of the file, once its identifier is known. */
    method LoadRow(row: Row, key: Option<Ident>, used: set<Ident>, ghost log: seq<L.Event>,
                   ghost names: set<string>, ghost base: map<string, Point>)
      returns (reserved: set<Ident>)
      requires Tracks(log, names, base, used)
      requires key == var e := L.Decide(log, row); if e.Placed? then Some(e.id) else None
      modifies this
      ensures Tracks(log + [L.Decide(log, row)], names, base, reserved)
      ensures forall n :: n in pointMap ==>
                (n in old(pointMap) && pointMap[n] == old(pointMap[n])) || fresh(pointMap[n])
    {
      ghost var e := L.Decide(log, row);
      L.OneMore(log, e);
      L.OneMoreMapped(base, log, e);
      reserved := used;
      if key.Some? {
        reserved := Keep(row, key.value, used, e);
      }
    }

    /** Loads a CSV file. The cursors and the set of reserved identifiers are its only memory of earlier
        rows, yet what it does to the registry is what the history says: auto rows get the least free
        number. `scans` counts, kind by kind, the iterations of the scan loop. */
    method Load(rows: seq<Row>) returns (ghost cursors: map<Kind, int>, ghost scans: map<Kind, nat>)
      requires Valid()
      modifies this
      ensures Valid()
      ensures commandableNames == old(commandableNames) + L.Names(L.Load(rows))
      ensures View() == old(View()) + L.Mapped(L.Load(rows))
      ensures forall n :: n in pointMap ==>
                (n in old(pointMap) && pointMap[n] == old(pointMap[n])) || fresh(pointMap[n])
      ensures forall k: Kind :: k in cursors && cursors[k] == C.CursorAfter(rows, k)
      ensures forall k: Kind :: k in scans && scans[k] == C.ScanSteps(rows, k)
    {
      var instanceIds := FIRST_NUMBERS;
      var used: set<Ident> := {};
      ghost var names, base := commandableNames, View();
      scans := map k | k in FIRST_NUMBERS :: 0;
      forall k: Kind ensures k in FIRST_NUMBERS && FIRST_NUMBERS[k] == 1 { EveryKindStartsAtOne(k); }
      for i := 0 to |rows|
        invariant Tracks(L.Load(rows[..i]), names, base, used) && Minds(instanceIds, scans, rows[..i])
        invariant forall n :: n in pointMap ==>
                    (n in old(pointMap) && pointMap[n] == old(pointMap[n])) || fresh(pointMap[n])
      {
        assert rows[..i + 1] == rows[..i] + [rows[i]] && rows[..i + 1][..i] == rows[..i];
        var key;
        instanceIds, key, scans := Identify(rows[i], instanceIds, used, rows[..i], scans);
        used := LoadRow(rows[i], key, used, L.Load(rows[..i]), names, base);
      }
      cursors := instanceIds;
      assert rows[..|rows|] == rows;
    }

    method UpdatePoint(name: string, s: Scalar, accepts: U.Accepts) returns (reply: Option<U.Reply>)
      requires Valid()
      modifies pointMap.Values
      ensures View() == U.AfterUpdate(old(View()), commandableNames, map[name := s], accepts)
      ensures reply == U.ReplyTo(old(View()), commandableNames, name, s, accepts)
    {
      if name in commandableNames {
        reply := Some(U.Skipped);
      } else if name !in pointMap {
        reply := Some(U.NotFound);
      } else {
        reply := pointMap[name].Set(s, accepts);
      }
    }

    /** Applies one more name of an update and records its reply, if any. */
    method UpdateNext(name: string, s: Scalar, accepts: U.Accepts, result: map<string, U.Reply>,
                      ghost was: map<string, Point>, ghost done: map<string, Scalar>)
      returns (more: map<string, U.Reply>)
      requires Valid() && name !in done
      requires View() == U.AfterUpdate(was, commandableNames, done, accepts)
      requires result == U.Replies(was, commandableNames, done, accepts)
      modifies pointMap.Values
      ensures View() == U.AfterUpdate(was, commandableNames, done[name := s], accepts)
      ensures more == U.Replies(was, commandableNames, done[name := s], accepts)
    {
      U.OneMoreName(was, commandableNames, done, name, s, accepts);
      var reply := UpdatePoint(name, s, accepts);
      more := if reply.Some? then result[name := reply.value] else result;
    }

    /** Visits the names of an update in any order and writes present values in place. */
    method UpdatePoints(update: map<string, Scalar>, accepts: U.Accepts) returns (result: map<string, U.Reply>)
      requires Valid()
      modifies pointMap.Values
      ensures View() == U.AfterUpdate(old(View()), commandableNames, update, accepts)
      ensures result == U.Replies(old(View()), commandableNames, update, accepts)
    {
      result := map[];
      var todo := update.Keys;
      ghost var done: map<string, Scalar> := map[];
      U.EmptyUpdate(View(), commandableNames, accepts);
      while todo != {}
        invariant todo <= update.Keys && done == update - todo
        invariant View() == U.AfterUpdate(old(View()), commandableNames, done, accepts)
        invariant result == U.Replies(old(View()), commandableNames, done, accepts)
        decreases |todo|
      {
        var name :| name in todo;
        U.TakeName(update, todo, name);
        result := UpdateNext(name, update[name], accepts, result, old(View()), done);
        todo := todo - {name};
        done := done[name := update[name]];
      }
      assert done == update;
    }

    /** Reads out the points that are commandable by their type, or by their name for multi-state values. */
    method ReadCommandable() returns (result: map<string, ReadOut>)
      requires Valid()
      ensures result == L.SelectedValues(View(), commandableNames)
    {
      result := map[];
      var todo := pointMap.Keys;
      ghost var view := View();
      assert view - todo == map[];
      while todo != {}
        invariant todo <= pointMap.Keys
        invariant result == L.SelectedValues(view - todo, commandableNames)
        decreases |todo|
      {
        var name :| name in todo;
        L.SelectedMore(view, commandableNames, todo, name);
        assert view[name] == pointMap[name].State();
        todo := todo - {name};
        if L.SelectedByType(pointMap[name].State(), name, commandableNames) {
          var shown := pointMap[name].Read();
          result := result[name := shown];
        }
      }
      assert view - todo == view;
    }

    /** Sets what a request asks for, one assignment after the other, until the object refuses one. */
    method UpdateSchedule(req: U.ScheduleRequest, takes: U.Takes) returns (complete: bool)
      requires Valid()
      modifies pointMap.Values
      ensures View() == U.AfterSchedule(old(View()), req, takes)
      ensures complete == U.Completes(old(View()), req, takes)
    {
      complete := true;
      if req.name in pointMap && pointMap[req.name].id.kind.Schedule? && pointMap[req.name].presentValue.Plan? {
        complete := pointMap[req.name].Reschedule(req, takes);
      }
    }

    /** A BACnet client's write. */
    method Write(name: string, v: Value)
      requires Valid()
      modifies pointMap.Values
      ensures View() == U.AfterWrite(old(View()), name, v)
    {
      if name in pointMap && Fits(pointMap[name].id.kind, v) {
        pointMap[name].presentValue := v;
      }
    }
  }
}
