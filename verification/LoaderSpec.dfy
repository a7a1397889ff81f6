/** What loading a CSV file means, told by its history alone: no cursors and no sets of reserved
    identifiers are stored. Each row's fate depends on the events before it, and an auto-numbered row
    takes the least number that was never reserved and never handed out. */
module LoaderSpec {

  import opened Wrappers
  import opened Points
  import opened Counting

  datatype Fate = Duplicate | CovError | NotBuilt | Refused | Registered

  /** A row is dropped before it gets an identifier, or it gets one and meets its fate. */
  datatype Event = Dropped(row: Row) | Placed(row: Row, id: Ident, fate: Fate) {
    predicate IsAuto() { Placed? && row.instance.Auto? }
    predicate Reserved() { Placed? && (fate.Refused? || fate.Registered?) }
    predicate Kept() { Placed? && fate.Registered? }
    predicate Protects() { Reserved() && row.Writeable() }
    predicate AutoOf(k: Kind) { IsAuto() && id.kind == k }
    predicate ExplicitOf(k: Kind) { Reserved() && !row.instance.Auto? && id.kind == k }

    function Made(): Point
      requires Kept()
    {
      Point(id, row.Writeable(), InitialValue(id.kind, row.default))
    }
  }

  function Used(log: seq<Event>): set<Ident> {
    set e | e in log && e.Reserved() :: e.id
  }

  function Handed(log: seq<Event>): set<Ident> {
    set e | e in log && e.IsAuto() :: e.id
  }

  /** Names the update paths must skip: added before `add_object` is tried. */
  function Names(log: seq<Event>): set<string> {
    set e | e in log && e.Protects() :: e.row.name
  }

  /** The point map: the last registered row of a name wins. */
  function Mapped(log: seq<Event>): map<string, Point> {
    if log == [] then map[]
    else
      var last := log[|log| - 1];
      var before := Mapped(log[..|log| - 1]);
      if last.Kept() then before[last.row.name := last.Made()] else before
  }

  /** The least number from `n` on that is not taken. */
  function LeastFree(k: Kind, taken: set<Ident>, n: int): (r: Option<int>)
    requires 1 <= n
    ensures r.Some? ==> n <= r.value <= MAX_INSTANCE && Ident(k, r.value) !in taken
    ensures r.Some? ==> forall m :: n <= m < r.value ==> Ident(k, m) in taken
    ensures r.None? ==> forall m :: n <= m <= MAX_INSTANCE ==> Ident(k, m) in taken
    decreases MAX_INSTANCE + 1 - n
  {
    if n > MAX_INSTANCE then None
    else if Ident(k, n) in taken then LeastFree(k, taken, n + 1)
    else Some(n)
  }

  function Instance(row: Row, taken: set<Ident>): Option<int>
    requires row.kind.Some?
  {
    match row.instance
    case NotInteger => None
    case Explicit(n) => if 0 <= n <= MAX_INSTANCE then Some(n) else None
    case Auto => LeastFree(row.kind.value, taken, 1)
  }

  function Decide(log: seq<Event>, row: Row): (e: Event)
    ensures e.row == row
  {
    if row.name == "" || row.kind.None? then Dropped(row)
    else
      match Instance(row, Used(log) + Handed(log))
      case None => Dropped(row)
      case Some(n) =>
        var id := Ident(row.kind.value, n);
        Placed(row, id,
               if id in Used(log) then Duplicate
               else if row.CovRejected() then CovError
               else if !row.builds then NotBuilt
               else if !row.admits then Refused
               else Registered)
  }

  function Load(rows: seq<Row>): (log: seq<Event>)
    ensures |log| == |rows|
  {
    if rows == [] then []
    else
      var before := Load(rows[..|rows| - 1]);
      before + [Decide(before, rows[|rows| - 1])]
  }

  /** How many auto rows of a kind were handed a number. */
  function AutoCount(log: seq<Event>, k: Kind): nat {
    if log == [] then 0
    else AutoCount(log[..|log| - 1], k) + if log[|log| - 1].AutoOf(k) then 1 else 0
  }

  /** How many rows reserved an explicit number of a kind. */
  function ExplicitCount(log: seq<Event>, k: Kind): nat {
    if log == [] then 0
    else ExplicitCount(log[..|log| - 1], k) + if log[|log| - 1].ExplicitOf(k) then 1 else 0
  }

  /** Both counts are numbers of rows: those that were handed a number, and explicit rows that reserved one. */
  lemma {:induction false} CountsAreRows(log: seq<Event>, k: Kind)
    ensures AutoCount(log, k) == |Positions(seq(|log|, i requires 0 <= i < |log| => log[i].AutoOf(k)))|
    ensures ExplicitCount(log, k) == |Positions(seq(|log|, i requires 0 <= i < |log| => log[i].ExplicitOf(k)))|
  {
    if log != [] {
      var n := |log| - 1;
      var most := log[..n];
      CountsAreRows(most, k);
      var autos := seq(n, i requires 0 <= i < n => most[i].AutoOf(k));
      var explicits := seq(n, i requires 0 <= i < n => most[i].ExplicitOf(k));
      PositionsMore(autos, log[n].AutoOf(k));
      PositionsMore(explicits, log[n].ExplicitOf(k));
      assert seq(|log|, i requires 0 <= i < |log| => log[i].AutoOf(k)) == autos + [log[n].AutoOf(k)];
      assert seq(|log|, i requires 0 <= i < |log| => log[i].ExplicitOf(k)) == explicits + [log[n].ExplicitOf(k)];
    }
  }

  function ExplicitNumbers(log: seq<Event>, k: Kind): set<int> {
    set e | e in log && e.ExplicitOf(k) :: e.id.instance
  }

  // ---------- the history, row by row ----------

  lemma {:induction false} LoadPrefix(rows: seq<Row>, i: nat)
    requires i <= |rows|
    ensures Load(rows)[..i] == Load(rows[..i])
  {
    if i == |rows| {
      assert rows[..i] == rows;
    } else {
      var most := rows[..|rows| - 1];
      LoadPrefix(most, i);
      assert most[..i] == rows[..i];
      assert Load(rows)[..i] == Load(most)[..i];
    }
  }

  /** Each event is decided by the events before it. */
  lemma {:induction false} LoadAt(rows: seq<Row>, i: nat)
    requires i < |rows|
    ensures Load(rows)[i] == Decide(Load(rows)[..i], rows[i])
  {
    LoadPrefix(rows, i);
    LoadPrefix(rows, i + 1);
    assert rows[..i + 1][..i] == rows[..i];
    assert Load(rows)[i] == Load(rows)[..i + 1][i];
  }

  /** What one more event adds to each part of the state. */
  lemma {:induction false} OneMore(log: seq<Event>, e: Event)
    ensures Used(log + [e]) == Used(log) + if e.Reserved() then {e.id} else {}
    ensures Handed(log + [e]) == Handed(log) + if e.IsAuto() then {e.id} else {}
    ensures Names(log + [e]) == Names(log) + if e.Protects() then {e.row.name} else {}
    ensures Mapped(log + [e]) == if e.Kept() then Mapped(log)[e.row.name := e.Made()] else Mapped(log)
  {
    assert (log + [e])[..|log|] == log;
    assert forall f :: f in log + [e] <==> f in log || f == e;
  }

  lemma {:induction false} OneMoreMapped(base: map<string, Point>, log: seq<Event>, e: Event)
    ensures base + Mapped(log + [e]) ==
            if e.Kept() then (base + Mapped(log))[e.row.name := e.Made()] else base + Mapped(log)
  {
    OneMore(log, e);
  }

  // ---------- identifiers ----------

  // ---------- a row by its cells ----------

  /** When a row gets an identifier: it has a name, a supported type, and an Instance cell that holds a BACnet
      number, or holds nothing while some number is left. */
  lemma {:induction false} RowIsPlaced(rows: seq<Row>, i: nat)
    requires i < |rows|
    ensures var r, taken := rows[i], Used(Load(rows)[..i]) + Handed(Load(rows)[..i]);
            Load(rows)[i].Placed? <==>
            && r.name != "" && r.kind.Some?
            && match r.instance
               case NotInteger => false
               case Explicit(n) => 0 <= n <= 4194303
               case Auto => exists n :: 1 <= n <= 4194303 && Ident(r.kind.value, n) !in taken
    ensures Load(rows)[i].Placed? && rows[i].instance.Explicit? ==>
              Load(rows)[i].id == Ident(rows[i].kind.value, rows[i].instance.n)
  {
    LoadAt(rows, i);
  }

  /** When a row with an identifier reserves it and when its point is hosted. An analog row may have no
      CovIncrement cell or a positive one. */
  lemma {:induction false} RowIsHosted(rows: seq<Row>, i: nat)
    requires i < |rows| && Load(rows)[i].Placed?
    ensures var r, e := rows[i], Load(rows)[i];
            && (e.Reserved() <==>
                && e.id !in Used(Load(rows)[..i])
                && (e.id.kind in {AnalogInput, AnalogOutput, AnalogValue} ==>
                      r.cov.NoCov? || (r.cov.Cov? && r.cov.x > 0.0))
                && r.builds)
            && (e.Kept() <==> e.Reserved() && r.admits)
  {
    LoadAt(rows, i);
  }

  /** The outputs, and the value objects of rows marked as commandable. */
  lemma {:induction false} NamesByCells(rows: seq<Row>, n: string)
    ensures n in Names(Load(rows)) <==>
            exists i :: 0 <= i < |rows| && Load(rows)[i].Reserved() && rows[i].name == n && rows[i].kind.Some?
              && (rows[i].kind.value in {AnalogOutput, BinaryOutput, MultiStateOutput}
                  || (rows[i].kind.value in {AnalogValue, BinaryValue, MultiStateValue} && rows[i].flag))
  {
    var log := Load(rows);
    forall i | 0 <= i < |rows| && log[i].Reserved() ensures log[i].row == rows[i] && rows[i].kind.Some? {
      LoadAt(rows, i);
    }
    if n in Names(log) {
      var i :| 0 <= i < |log| && log[i].Protects() && log[i].row.name == n;
      assert log[i].Reserved() && rows[i].name == n;
    }
    forall i | 0 <= i < |rows| && log[i].Reserved() && rows[i].name == n && rows[i].Writeable()
      ensures n in Names(log)
    {
      assert log[i] in log;
    }
  }

  /** A mapped point is the one its last hosted row describes: identifier, commandability and first value. */
  lemma {:induction false} PointByCells(rows: seq<Row>, n: string) returns (i: nat)
    requires n in Mapped(Load(rows))
    ensures i < |rows| && Load(rows)[i].Kept() && rows[i].name == n && rows[i].kind.Some?
    ensures forall j :: i < j < |rows| && Load(rows)[j].Kept() ==> rows[j].name != n
    ensures var r, p := rows[i], Mapped(Load(rows))[n];
            && p.id == Load(rows)[i].id && p.id.kind == r.kind.value
            && (p.commandable <==>
                r.kind.value in {AnalogOutput, BinaryOutput, MultiStateOutput}
                || (r.kind.value in {AnalogValue, BinaryValue, MultiStateValue} && r.flag))
            && p.value ==
               match r.kind.value
               case AnalogInput | AnalogOutput | AnalogValue =>
                 Analog(if r.default.asFloat.Some? then r.default.asFloat.value else 0.0)
               case BinaryInput | BinaryOutput | BinaryValue => Binary(r.default.asActive)
               case MultiStateInput | MultiStateOutput | MultiStateValue =>
                 States(if r.default.asInt.Some? then r.default.asInt.value else 1)
               case Schedule => Plan(Integer(0), Integer(0), DEFAULT_WEEK)
  {
    i := MappedFrom(Load(rows), n);
    LoadAt(rows, i);
    forall j | i < j < |rows| ensures Load(rows)[j].row == rows[j] {
      LoadAt(rows, j);
    }
  }

  /** Every auto-numbered row gets the least number, from 1, that no earlier row reserved and no earlier
      auto row was handed, so it is never reported as a duplicate; without one the row is dropped only
      because every number of its kind is gone. */
  lemma {:induction false} AutoIsLeastFree(rows: seq<Row>, i: nat)
    requires i < |rows| && rows[i].name != "" && rows[i].kind.Some? && rows[i].instance.Auto?
    ensures var log := Load(rows);
            var taken := Used(log[..i]) + Handed(log[..i]);
            var k := rows[i].kind.value;
            match log[i]
            case Dropped(_) => forall n :: 1 <= n <= MAX_INSTANCE ==> Ident(k, n) in taken
            case Placed(_, id, fate) =>
              && id.kind == k && 1 <= id.instance <= MAX_INSTANCE
              && id !in taken && !fate.Duplicate?
              && forall n :: 1 <= n < id.instance ==> Ident(k, n) in taken
  {
    LoadAt(rows, i);
  }

  /** Auto numbers of a kind strictly increase in row order. */
  lemma {:induction false} AutoIncreases(rows: seq<Row>, i: nat, j: nat)
    requires i < j < |rows|
    requires Load(rows)[i].IsAuto() && Load(rows)[j].IsAuto()
    requires Load(rows)[i].id.kind == Load(rows)[j].id.kind
    ensures Load(rows)[i].id.instance < Load(rows)[j].id.instance
  {
    AutoRow(rows, i);
    AutoRow(rows, j);
    AutoIsLeastFree(rows, i);
    AutoIsLeastFree(rows, j);
    HandedBefore(Load(rows), i, j);
  }

  lemma {:induction false} AutoRow(rows: seq<Row>, i: nat)
    requires i < |rows| && Load(rows)[i].IsAuto()
    ensures rows[i].name != "" && rows[i].kind == Some(Load(rows)[i].id.kind) && rows[i].instance.Auto?
  {
    LoadAt(rows, i);
  }

  /** Taken numbers stay taken, and a handed number is taken from then on. */
  lemma {:induction false} HandedBefore(log: seq<Event>, i: nat, j: nat)
    requires i < j <= |log| && log[i].IsAuto()
    ensures Used(log[..i]) + Handed(log[..i]) <= Used(log[..j]) + Handed(log[..j])
    ensures log[i].id in Handed(log[..j])
  {
    assert forall e :: e in log[..i] ==> e in log[..j];
    assert log[i] == log[..j][i];
  }

  /** No identifier is reserved by two rows, and all are BACnet instance numbers. */
  lemma {:induction false} ReservedOnce(rows: seq<Row>, i: nat, j: nat)
    requires i < j < |rows| && Load(rows)[i].Reserved() && Load(rows)[j].Reserved()
    ensures Load(rows)[i].id != Load(rows)[j].id
  {
    LoadAt(rows, j);
    assert Load(rows)[i] in Load(rows)[..j];
  }

  lemma {:induction false} PlacedInRange(rows: seq<Row>, i: nat)
    requires i < |rows| && Load(rows)[i].Placed?
    ensures 0 <= Load(rows)[i].id.instance <= MAX_INSTANCE
    ensures rows[i].kind == Some(Load(rows)[i].id.kind) && rows[i].name != ""
  {
    LoadAt(rows, i);
  }

  /** The position of the row behind a mapped point. */
  lemma {:induction false} MappedFrom(log: seq<Event>, n: string) returns (i: nat)
    requires n in Mapped(log)
    ensures i < |log| && log[i].Kept() && log[i].row.name == n && Mapped(log)[n] == log[i].Made()
    ensures forall j :: i < j < |log| && log[j].Kept() ==> log[j].row.name != n
  {
    var last := |log| - 1;
    if log[last].Kept() && log[last].row.name == n {
      i := last;
    } else {
      i := MappedFrom(log[..last], n);
      assert forall j :: 0 <= j < last ==> log[..last][j] == log[j];
    }
  }

  lemma {:induction false} KeptIsMapped(log: seq<Event>, i: nat)
    requires i < |log| && log[i].Kept()
    ensures log[i].row.name in Mapped(log)
  {
    if i < |log| - 1 {
      KeptIsMapped(log[..|log| - 1], i);
    }
  }

  /** After any load, registered points have pairwise distinct identifiers, all in range. */
  lemma {:induction false} IdentifiersUnique(rows: seq<Row>, m: string, n: string)
    requires m in Mapped(Load(rows)) && n in Mapped(Load(rows)) && m != n
    ensures Mapped(Load(rows))[m].id != Mapped(Load(rows))[n].id
    ensures 0 <= Mapped(Load(rows))[m].id.instance <= MAX_INSTANCE
  {
    var i := MappedFrom(Load(rows), m);
    var j := MappedFrom(Load(rows), n);
    PlacedInRange(rows, i);
    if i < j {
      ReservedOnce(rows, i, j);
    } else {
      ReservedOnce(rows, j, i);
    }
  }

  /** Appending rows that repeat no mapped name keeps every point, its identifier and its number. */
  lemma {:induction false} AppendKeeps(a: seq<Row>, b: seq<Row>, n: string)
    requires n in Mapped(Load(a)) && forall r :: r in b ==> r.name != n
    ensures n in Mapped(Load(a + b)) && Mapped(Load(a + b))[n] == Mapped(Load(a))[n]
  {
    if b == [] {
      assert a + b == a;
    } else {
      var most := b[..|b| - 1];
      AppendKeeps(a, most, n);
      assert (a + b)[..|a + b| - 1] == a + most;
      assert b[|b| - 1] in b;
    }
  }

  // ---------- cursors ----------

  /** A number below which everything is taken, and from which on nothing was handed out, may stand in
      for a scan from 1: this is why a cursor that only looks at reserved identifiers is enough. */
  lemma {:induction false} CursorSuffices(k: Kind, used: set<Ident>, handed: set<Ident>, n: int, cursor: int)
    requires 1 <= n <= cursor <= MAX_INSTANCE + 1
    requires forall m :: n <= m < cursor ==> Ident(k, m) in used + handed
    requires forall m :: cursor <= m ==> Ident(k, m) !in handed
    ensures LeastFree(k, used + handed, n) == LeastFree(k, used, cursor)
    decreases MAX_INSTANCE + 1 - n
  {
    if n < cursor {
      CursorSuffices(k, used, handed, n + 1, cursor);
    } else if n <= MAX_INSTANCE && Ident(k, n) in used {
      CursorSuffices(k, used, handed, n + 1, n + 1);
    }
  }

  lemma {:induction false} SubsetSize<T>(a: set<T>, b: set<T>)
    requires a <= b
    ensures |a| <= |b|
  {
    assert b == a + (b - a);
  }

  lemma {:induction false} ExplicitNumbersBound(log: seq<Event>, k: Kind)
    ensures |ExplicitNumbers(log, k)| <= ExplicitCount(log, k)
  {
    if log != [] {
      var most, last := log[..|log| - 1], log[|log| - 1];
      ExplicitNumbersBound(most, k);
      var now := if last.ExplicitOf(k) then {last.id.instance} else {};
      assert log == most + [last];
      assert forall e :: e in log <==> e in most || e == last;
      assert ExplicitNumbers(log, k) <= ExplicitNumbers(most, k) + now;
      SubsetSize(ExplicitNumbers(log, k), ExplicitNumbers(most, k) + now);
    }
  }

  // ---------- reordering ----------

  /** The identifier an explicit, acceptable row asks for. */
  predicate Usable(r: Row) {
    && r.name != "" && r.kind.Some?
    && r.instance.Explicit? && 0 <= r.instance.n <= MAX_INSTANCE
    && !r.CovRejected() && r.builds
  }

  function Asks(r: Row): Ident
    requires Usable(r)
  {
    Ident(r.kind.value, r.instance.n)
  }

  predicate Clash(r: Row, s: Row) {
    Usable(r) && Usable(s) && (r.name == s.name || Asks(r) == Asks(s))
  }

  /** No auto rows, and no two rows that would be accepted share a name or an identifier. */
  ghost predicate Settled(rows: multiset<Row>) {
    && (forall r :: r in rows ==> !r.instance.Auto?)
    && (forall r :: r in rows && Usable(r) ==> rows[r] == 1)
    && (forall r, s :: r in rows && s in rows && r != s ==> !Clash(r, s))
  }

  /** In a settled file the fate of a row does not depend on the other rows. */
  lemma {:induction false} SettledFates(rows: seq<Row>, i: nat)
    requires Settled(multiset(rows)) && i < |rows|
    ensures Load(rows)[i].Reserved() <==> Usable(rows[i])
    ensures Load(rows)[i].Kept() <==> Usable(rows[i]) && rows[i].admits
    ensures Usable(rows[i]) ==> Load(rows)[i].id == Asks(rows[i])
    ensures Load(rows)[i].row == rows[i]
    decreases i
  {
    LoadAt(rows, i);
    assert rows[i] in multiset(rows);
    if Usable(rows[i]) && Asks(rows[i]) in Used(Load(rows)[..i]) {
      var e :| e in Load(rows)[..i] && e.Reserved() && e.id == Asks(rows[i]);
      var j :| 0 <= j < i && Load(rows)[j] == e;
      SettledFates(rows, j);
      assert rows[j] in multiset(rows);
      assert Clash(rows[i], rows[j]);
      TwoPlaces(rows, j, i);
      assert false;
    }
  }

  lemma {:induction false} TwoPlaces(rows: seq<Row>, j: nat, i: nat)
    requires j < i < |rows|
    ensures rows[i] == rows[j] ==> multiset(rows)[rows[i]] >= 2
  {
    assert rows == rows[..i] + rows[i..];
    assert rows[..i][j] in multiset(rows[..i]);
    assert rows[i..][0] in multiset(rows[i..]);
    if rows[i] == rows[j] {
      assert multiset(rows) == multiset(rows[..i]) + multiset(rows[i..]);
    }
  }

  lemma {:induction false} SettledUsed(rows: seq<Row>)
    requires Settled(multiset(rows))
    ensures Used(Load(rows)) == set r | r in multiset(rows) && Usable(r) :: Asks(r)
  {
    var log := Load(rows);
    forall d | d in Used(log)
      ensures exists r :: r in multiset(rows) && Usable(r) && Asks(r) == d
    {
      var i :| 0 <= i < |log| && log[i].Reserved() && log[i].id == d;
      SettledFates(rows, i);
      assert rows[i] in multiset(rows);
    }
    forall r | r in multiset(rows) && Usable(r) ensures Asks(r) in Used(log) {
      var i :| 0 <= i < |rows| && rows[i] == r;
      SettledFates(rows, i);
      assert log[i] in log;
    }
  }

  lemma {:induction false} SettledNames(rows: seq<Row>)
    requires Settled(multiset(rows))
    ensures Names(Load(rows)) == set r | r in multiset(rows) && Usable(r) && r.Writeable() :: r.name
  {
    var log := Load(rows);
    forall n | n in Names(log)
      ensures exists r :: r in multiset(rows) && Usable(r) && r.Writeable() && r.name == n
    {
      var i :| 0 <= i < |log| && log[i].Protects() && log[i].row.name == n;
      SettledFates(rows, i);
      assert rows[i] in multiset(rows);
    }
    forall r | r in multiset(rows) && Usable(r) && r.Writeable() ensures r.name in Names(log) {
      var i :| 0 <= i < |rows| && rows[i] == r;
      SettledFates(rows, i);
      assert log[i] in log;
    }
  }

  lemma {:induction false} SettledMapped(rows: seq<Row>, n: string)
    requires Settled(multiset(rows))
    ensures n in Mapped(Load(rows)) <==>
            exists r :: r in multiset(rows) && Usable(r) && r.admits && r.name == n
    ensures forall r :: r in multiset(rows) && Usable(r) && r.admits && r.name == n && n in Mapped(Load(rows)) ==>
              Mapped(Load(rows))[n] ==
              Point(Asks(r), r.Writeable(), InitialValue(r.kind.value, r.default))
  {
    var log := Load(rows);
    if n in Mapped(log) {
      var i := MappedFrom(log, n);
      SettledFates(rows, i);
      assert rows[i] in multiset(rows);
      forall r | r in multiset(rows) && Usable(r) && r.admits && r.name == n
        ensures r == rows[i]
      {
        assert r != rows[i] ==> Clash(r, rows[i]);
      }
    }
    forall r | r in multiset(rows) && Usable(r) && r.admits && r.name == n
      ensures n in Mapped(log)
    {
      var i :| 0 <= i < |rows| && rows[i] == r;
      SettledFates(rows, i);
      KeptIsMapped(log, i);
    }
  }

  /** The documented promise: with explicit Instance cells, reordering the file changes nothing. */
  lemma {:induction false} ReorderStable(a: seq<Row>, b: seq<Row>)
    requires multiset(a) == multiset(b) && Settled(multiset(a))
    ensures Mapped(Load(a)) == Mapped(Load(b))
    ensures Used(Load(a)) == Used(Load(b)) && Names(Load(a)) == Names(Load(b))
  {
    SettledUsed(a);
    SettledUsed(b);
    SettledNames(a);
    SettledNames(b);
    forall n ensures n in Mapped(Load(a)) <==> n in Mapped(Load(b))
             ensures n in Mapped(Load(a)) ==> Mapped(Load(a))[n] == Mapped(Load(b))[n]
    {
      SettledMapped(a, n);
      SettledMapped(b, n);
    }
  }

  function SimpleRow(name: string, cell: InstanceCell): Row {
    Row(name, Some(AnalogInput), false, cell, NoCov, DefaultCell(None, false, None), true, true)
  }

  /** The promise does not extend to files that mix both styles: an auto row in front takes number 1,
      and the explicit row that asks for it, alone in the file or first in it, is lost. */
  lemma {:induction false} MixedFileLosesExplicitRow()
    ensures var auto, fixed := SimpleRow("x", Auto), SimpleRow("y", Explicit(1));
            "y" in Mapped(Load([fixed, auto])) && "y" !in Mapped(Load([auto, fixed]))
  {
    var auto, fixed := SimpleRow("x", Auto), SimpleRow("y", Explicit(1));
    var one := Ident(AnalogInput, 1);
    assert [fixed, auto][..1] == [fixed] && [auto, fixed][..1] == [auto];
    assert Load([fixed]) == [Decide([], fixed)] && Load([auto]) == [Decide([], auto)];
    assert Decide([], fixed) == Placed(fixed, one, Registered);
    assert Used([]) + Handed([]) == {};
    assert Decide([], auto) == Placed(auto, one, Registered);
    assert Load([auto])[0] in Load([auto]) && one in Used(Load([auto]));
    assert Load([auto, fixed]) == [Placed(auto, one, Registered), Placed(fixed, one, Duplicate)];
    KeptIsMapped(Load([fixed, auto]), 0);
    if "y" in Mapped(Load([auto, fixed])) {
      var i := MappedFrom(Load([auto, fixed]), "y");
      assert false;
    }
  }

  /** In one order of the rows, an explicit row keeps the number it asks for unless an earlier row reserved
      it. */
  lemma {:induction false} ExplicitKeepsNumber(rows: seq<Row>, i: nat)
    requires i < |rows| && Usable(rows[i])
    ensures Load(rows)[i].Reserved() <==>
            forall j :: 0 <= j < i && Load(rows)[j].Reserved() ==> Load(rows)[j].id != Asks(rows[i])
  {
    LoadAt(rows, i);
    var log := Load(rows);
    forall j | 0 <= j < i && log[j].Reserved() ensures log[j].id in Used(log[..i]) {
      assert log[j] in log[..i];
    }
    if Asks(rows[i]) in Used(log[..i]) {
      var e :| e in log[..i] && e.Reserved() && e.id == Asks(rows[i]);
      var j :| 0 <= j < i && log[j] == e;
    }
  }

  // ---------- the two notions of commandable ----------

  /** How `server_read_commandable` selects a point: by class, except for multi-state values. */
  predicate SelectedByType(p: Point, name: string, names: set<string>) {
    match p.id.kind
    case AnalogOutput | BinaryOutput | MultiStateOutput => true
    case AnalogValue | BinaryValue => p.commandable
    case MultiStateValue => name in names
    case _ => false
  }

  /** The commandable read-out: the selected points, as their values read out. */
  function SelectedValues(points: map<string, Point>, names: set<string>): map<string, ReadOut> {
    map n | n in points && SelectedByType(points[n], n, names) :: Show(points[n].id.kind, points[n].value)
  }

  lemma SelectedMore(points: map<string, Point>, names: set<string>, todo: set<string>, n: string)
    requires n in points && n in todo
    ensures var before, p := SelectedValues(points - todo, names), points[n];
            SelectedValues(points - (todo - {n}), names) ==
            if SelectedByType(p, n, names) then before[n := Show(p.id.kind, p.value)] else before
  {
    assert forall m :: m in points - (todo - {n}) <==> m in points - todo || m == n;
  }

  /** The update paths rely on this: every mapped point built as commandable is a protected name. */
  lemma {:induction false} CommandableIsProtected(rows: seq<Row>, n: string)
    requires n in Mapped(Load(rows))
    ensures Mapped(Load(rows))[n].commandable ==> n in Names(Load(rows))
    ensures SelectedByType(Mapped(Load(rows))[n], n, Names(Load(rows))) ==> n in Names(Load(rows))
  {
    var log := Load(rows);
    var i := MappedFrom(log, n);
    PlacedInRange(rows, i);
    LoadAt(rows, i);
    assert log[i] in log;
  }

  /** Row `j` holds the name in the point map. */
  predicate Holds(log: seq<Event>, n: string, j: nat) {
    && j < |log| && log[j].Kept() && log[j].row.name == n
    && forall l :: j < l < |log| && log[l].Kept() ==> log[l].row.name != n
  }

  /** The row that holds the name is not a commandable one, yet another row of that name protected it. */
  ghost predicate Overprotected(log: seq<Event>, n: string) {
    && (exists j: nat :: Holds(log, n, j) && !log[j].row.Writeable() && !log[j].id.kind.MultiStateValue?)
    && (exists e :: e in log && e.Protects() && e.row.name == n)
  }

  /** Selection by type and protection by name differ exactly on overprotected names. */
  lemma {:induction false} NotionsAgreeIff(rows: seq<Row>, n: string)
    requires n in Mapped(Load(rows))
    ensures var log := Load(rows);
            (SelectedByType(Mapped(log)[n], n, Names(log)) <==> n in Names(log)) <==> !Overprotected(log, n)
  {
    var log := Load(rows);
    var j := MappedFrom(log, n);
    assert Holds(log, n, j);
    assert forall l: nat :: Holds(log, n, l) ==> l == j;
    CommandableIsProtected(rows, n);
    PlacedInRange(rows, j);
    LoadAt(rows, j);
  }

  /** With distinct names the two notions agree on every mapped point, refused objects or not. */
  lemma {:induction false} NotionsAgree(rows: seq<Row>, n: string)
    requires forall i, j :: 0 <= i < j < |rows| ==> rows[i].name != rows[j].name
    requires n in Mapped(Load(rows))
    ensures SelectedByType(Mapped(Load(rows))[n], n, Names(Load(rows))) <==> n in Names(Load(rows))
  {
    NotionsAgreeIff(rows, n);
    var log := Load(rows);
    if Overprotected(log, n) {
      var j: nat :| Holds(log, n, j) && !log[j].row.Writeable();
      var i :| 0 <= i < |log| && log[i].Protects() && log[i].row.name == n;
      LoadAt(rows, i);
      LoadAt(rows, j);
      assert false;
    }
  }
}
