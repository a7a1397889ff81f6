/** Hosted BACnet points and the parsed CSV rows they come from. */
module Points {

  import opened Wrappers

  const MAX_INSTANCE := 4194303

  datatype Kind =
    | AnalogInput | AnalogOutput | AnalogValue
    | BinaryInput | BinaryOutput | BinaryValue
    | MultiStateInput | MultiStateOutput | MultiStateValue
    | Schedule

  datatype Ident = Ident(kind: Kind, instance: int)

  /** A JSON scalar as a point update or a schedule entry may carry it. */
  datatype Scalar = Int(i: int) | Real(r: real) | Bool(b: bool)

  datatype Number = Integer(n: int) | Float(x: real)

  datatype TimeEntry = TimeEntry(hour: nat, minute: nat, second: nat, number: Number)

  /** The state of a point, one shape for each family of kinds. */
  datatype Value =
    | Analog(level: real)
    | Binary(active: bool)
    | States(state: int)
    | Plan(present: Number, default: Number, weekly: seq<seq<TimeEntry>>)

  /** `commandable` records that the row asked for a point that only BACnet clients write. */
  datatype Point = Point(id: Ident, commandable: bool, value: Value)

  /** The Instance cell: empty, not an integer, or an integer. */
  datatype InstanceCell = Auto | NotInteger | Explicit(n: int)

  /** The CovIncrement cell: empty, not a finite number, or a finite number. */
  datatype CovCell = NoCov | NotFinite | Cov(x: real)

  /** What the Default cell reads as for each family of kinds. */
  datatype DefaultCell = DefaultCell(asFloat: Option<real>, asActive: bool, asInt: Option<int>)

  /** A CSV row as parsed. `kind` is None for an unsupported PointType or a row with missing cells;
      `builds` and `admits` are the answers of the object constructor and of `add_object`. */
  datatype Row = Row(
    name: string,
    kind: Option<Kind>,
    flag: bool,
    instance: InstanceCell,
    cov: CovCell,
    default: DefaultCell,
    builds: bool,
    admits: bool)
  {
    predicate Writeable() {
      kind.Some? && BuiltCommandable(kind.value, flag)
    }

    predicate CovRejected() {
      && kind.Some? && IsAnalog(kind.value)
      && (cov.NotFinite? || (cov.Cov? && cov.x <= 0.0))
    }
  }

  /** The name of a kind of object in the BACnet vocabulary. */
  function VocabularyName(k: Kind): string {
    match k
    case AnalogInput => "analog-input"
    case AnalogOutput => "analog-output"
    case AnalogValue => "analog-value"
    case BinaryInput => "binary-input"
    case BinaryOutput => "binary-output"
    case BinaryValue => "binary-value"
    case MultiStateInput => "multi-state-input"
    case MultiStateOutput => "multi-state-output"
    case MultiStateValue => "multi-state-value"
    case Schedule => "schedule"
  }

  predicate IsAnalog(k: Kind) {
    k.AnalogInput? || k.AnalogOutput? || k.AnalogValue?
  }

  predicate IsBinary(k: Kind) {
    k.BinaryInput? || k.BinaryOutput? || k.BinaryValue?
  }

  /** Outputs are always written by BACnet clients; value objects only when the row says so. */
  predicate BuiltCommandable(k: Kind, flag: bool) {
    match k
    case AnalogOutput | BinaryOutput | MultiStateOutput => true
    case AnalogValue | BinaryValue | MultiStateValue => flag
    case _ => false
  }

  const WEEKDAY := [TimeEntry(8, 0, 0, Integer(1)), TimeEntry(17, 0, 0, Integer(0))]
  const WEEKEND := [TimeEntry(0, 0, 0, Integer(0))]
  const DEFAULT_WEEK := [WEEKDAY, WEEKDAY, WEEKDAY, WEEKDAY, WEEKDAY, WEEKEND, WEEKEND]

  function Seconds(hour: nat, minute: nat, second: nat): nat {
    (hour * 60 + minute) * 60 + second
  }

  /** What a day of a schedule asks for at a time: its last entry up to then, or else the default. */
  function Scheduled(day: seq<TimeEntry>, default: Number, time: nat): Number {
    if day == [] then default
    else
      var last := day[|day| - 1];
      if Seconds(last.hour, last.minute, last.second) <= time then last.number
      else Scheduled(day[..|day| - 1], default, time)
  }

  /** A new schedule asks for 1 from Monday to Friday between 8:00 and 17:00, for 0 after that and at weekends,
      and for its default, which is 0, before. */
  lemma OfficeHours(day: nat, default: Number, time: nat)
    requires day < 7
    ensures |DEFAULT_WEEK| == 7
    ensures Scheduled(DEFAULT_WEEK[day], default, time) ==
            if day < 5 && time < 28800 then default
            else if day < 5 && time < 61200 then Integer(1)
            else Integer(0)
  {
    assert DEFAULT_WEEK[day] == if day < 5 then WEEKDAY else WEEKEND;
    assert WEEKDAY[..1] == [TimeEntry(8, 0, 0, Integer(1))] && WEEKDAY[..1][..0] == [] && WEEKEND[..0] == [];
    assert Scheduled(WEEKDAY[..1], default, time) == if 28800 <= time then Integer(1) else Scheduled([], default, time);
  }

  function InitialValue(k: Kind, d: DefaultCell): Value {
    if IsAnalog(k) then Analog(if d.asFloat.Some? then d.asFloat.value else 0.0)
    else if IsBinary(k) then Binary(d.asActive)
    else if k.Schedule? then Plan(Integer(0), Integer(0), DEFAULT_WEEK)
    else States(if d.asInt.Some? then d.asInt.value else 1)
  }

  /** The present value has the shape of its point's kind; a weekly schedule has seven days. */
  predicate Fits(k: Kind, v: Value) {
    match v
    case Analog(_) => IsAnalog(k)
    case Binary(_) => IsBinary(k)
    case States(_) => !IsAnalog(k) && !IsBinary(k) && !k.Schedule?
    case Plan(_, _, weekly) => k.Schedule? && |weekly| == 7
  }

  lemma InitialFits(k: Kind, d: DefaultCell)
    ensures Fits(k, InitialValue(k, d))
  {}

  /** How a value reads out: as a float, a string or an integer by the type of its point. */
  datatype ReadOut = AsFloat(x: real) | AsText(s: string) | AsInteger(i: int) | Unreadable

  function Show(k: Kind, v: Value): ReadOut {
    if IsAnalog(k) then (if v.Analog? then AsFloat(v.level) else Unreadable)
    else if IsBinary(k) then (if v.Binary? then AsText(if v.active then "active" else "inactive") else Unreadable)
    else if v.States? then AsInteger(v.state)
    else Unreadable
  }

  /** How each type of value reads out, whatever kind of point of that type holds it. */
  lemma ShownAs(k: Kind, v: Value)
    ensures k in {AnalogInput, AnalogOutput, AnalogValue} && v.Analog? ==> Show(k, v) == AsFloat(v.level)
    ensures k in {BinaryInput, BinaryOutput, BinaryValue} && v == Binary(true) ==> Show(k, v) == AsText("active")
    ensures k in {BinaryInput, BinaryOutput, BinaryValue} && v == Binary(false) ==> Show(k, v) == AsText("inactive")
    ensures k in {MultiStateInput, MultiStateOutput, MultiStateValue} && v.States? ==>
              Show(k, v) == AsInteger(v.state)
  {}

  /** A value that fits its point reads out, and different values read out differently. */
  lemma ShowSeparates(k: Kind, v: Value, w: Value)
    requires Fits(k, v) && Fits(k, w) && !k.Schedule?
    ensures !Show(k, v).Unreadable? && (Show(k, v) == Show(k, w) <==> v == w)
  {}
}
