/** Reordering a CSV file: exactly when an explicit Instance cell is safe in every order of the rows. */
module Reordering {

  import opened Wrappers
  import opened Points
  import opened LoaderSpec
  import opened Cursors

  // ---------- what a caller can read off the file ----------

  /** An auto row, which takes a number whatever becomes of it, that also gets as far as reserving it. */
  predicate IsGoodAuto(r: Row, k: Kind) {
    IsAutoRow(r, k) && !r.CovRejected() && r.builds
  }

  function AutoRows(rows: seq<Row>, k: Kind): seq<Row> {
    if rows == [] then []
    else
      var last := rows[|rows| - 1];
      AutoRows(rows[..|rows| - 1], k) + if IsAutoRow(last, k) then [last] else []
  }

  predicate AsksBelow(r: Row, k: Kind, n: int) {
    Usable(r) && r.kind.value == k && 1 <= r.instance.n < n
  }

  function Number(r: Row): int {
    if r.instance.Explicit? then r.instance.n else 0
  }

  /** The numbers in 1..n-1 that acceptable explicit rows of a kind ask for. */
  function LowNumbers(rows: seq<Row>, k: Kind, n: int): set<int> {
    set r | r in rows && AsksBelow(r, k, n) :: Number(r)
  }

  /** No other row, nor the same one again, asks for the number, and the auto rows of its kind cannot reach
      it: it is 0, or none of them gets as far as reserving a number, or they are too few to fill the gaps
      below it. */
  ghost predicate Safe(rows: seq<Row>, r: Row)
    requires Usable(r)
  {
    var k, n := r.kind.value, r.instance.n;
    && multiset(rows)[r] == 1
    && (forall s :: s in rows && s != r && Usable(s) ==> Asks(s) != Asks(r))
    && (n == 0
        || (forall s :: s in rows ==> !IsGoodAuto(s, k))
        || |AutoRows(rows, k)| + |LowNumbers(rows, k, n)| < n)
  }

  /** The row gets the number it asks for. */
  ghost predicate KeepsNumber(order: seq<Row>, r: Row)
    requires Usable(r)
  {
    forall i :: 0 <= i < |order| && order[i] == r ==>
      Load(order)[i].Reserved() && Load(order)[i].id == Asks(r)
  }

  // ---------- counting ----------

  lemma {:induction false} AutoRowsConcat(a: seq<Row>, b: seq<Row>, k: Kind)
    ensures AutoRows(a + b, k) == AutoRows(a, k) + AutoRows(b, k)
  {
    if b == [] {
      assert a + b == a;
    } else {
      assert (a + b)[..|a + b| - 1] == a + b[..|b| - 1];
      AutoRowsConcat(a, b[..|b| - 1], k);
    }
  }

  lemma {:induction false} AutoRowsCount(rows: seq<Row>, k: Kind, r: Row)
    ensures multiset(AutoRows(rows, k))[r] == if IsAutoRow(r, k) then multiset(rows)[r] else 0
  {
    if rows != [] {
      var most, last := rows[..|rows| - 1], rows[|rows| - 1];
      AutoRowsCount(most, k, r);
      assert rows == most + [last];
    }
  }

  /** The number of auto rows does not depend on the order. */
  lemma AutoRowsReordered(a: seq<Row>, b: seq<Row>, k: Kind)
    requires multiset(a) == multiset(b)
    ensures |AutoRows(a, k)| == |AutoRows(b, k)|
  {
    forall r ensures multiset(AutoRows(a, k))[r] == multiset(AutoRows(b, k))[r] {
      AutoRowsCount(a, k, r);
      AutoRowsCount(b, k, r);
    }
    assert multiset(AutoRows(a, k)) == multiset(AutoRows(b, k));
    assert |multiset(AutoRows(a, k))| == |AutoRows(a, k)|;
    assert |multiset(AutoRows(b, k))| == |AutoRows(b, k)|;
  }

  lemma SameRows(a: seq<Row>, b: seq<Row>)
    requires multiset(a) == multiset(b)
    ensures forall r :: r in a <==> r in b
  {
    assert forall r :: r in a <==> r in multiset(a);
    assert forall r :: r in b <==> r in multiset(b);
  }

  function HandedNumbers(log: seq<Event>, k: Kind): set<int> {
    set e | e in log && e.AutoOf(k) :: e.id.instance
  }

  lemma HandedMore(log: seq<Event>, e: Event, k: Kind)
    ensures HandedNumbers(log + [e], k) == HandedNumbers(log, k) + if e.AutoOf(k) then {e.id.instance} else {}
  {
    assert forall f :: f in log + [e] <==> f in log || f == e;
  }

  /** Each handed number has its auto row. */
  lemma {:induction false} HandedBound(rows: seq<Row>, k: Kind)
    ensures |HandedNumbers(Load(rows), k)| <= |AutoRows(rows, k)|
  {
    if rows != [] {
      var most, row := rows[..|rows| - 1], rows[|rows| - 1];
      var e := Decide(Load(most), row);
      HandedBound(most, k);
      HandedMore(Load(most), e, k);
      assert e.AutoOf(k) ==> IsAutoRow(row, k);
    }
  }

  // ---------- a safe number is never taken ----------

  /** If all numbers below `n` are taken when row `j` comes, explicit rows and earlier auto rows took them. */
  lemma TakenBelow(order: seq<Row>, j: nat, k: Kind, n: int)
    requires j <= |order| && n >= 1
    requires var log := Load(order)[..j]; forall m :: 1 <= m < n ==> Ident(k, m) in Used(log) + Handed(log)
    ensures n - 1 <= |AutoRows(order[..j], k)| + |LowNumbers(order, k, n)|
  {
    LoadPrefix(order, j);
    var before := order[..j];
    var log := Load(before);
    forall m | m in Span(1, n) ensures m in HandedNumbers(log, k) + LowNumbers(order, k, n) {
      if Ident(k, m) in Handed(log) {
        var e :| e in log && e.IsAuto() && e.id == Ident(k, m);
        assert e.AutoOf(k);
      } else {
        var i :| 0 <= i < |log| && log[i].Reserved() && log[i].id == Ident(k, m);
        LoadAt(before, i);
        assert log[i].IsAuto() ==> Ident(k, m) in Handed(log);
        assert before[i] == order[i];
        assert AsksBelow(order[i], k, n);
      }
    }
    SubsetSize(Span(1, n), HandedNumbers(log, k) + LowNumbers(order, k, n));
    HandedBound(before, k);
  }

  /** Auto rows cannot reserve a number they are too few to reach. */
  lemma AutoCannotReach(order: seq<Row>, j: nat, k: Kind, n: int)
    requires j < |order| && Load(order)[j].IsAuto() && Load(order)[j].id == Ident(k, n)
    ensures 1 <= n <= |AutoRows(order, k)| + |LowNumbers(order, k, n)|
  {
    AutoRow(order, j);
    AutoIsLeastFree(order, j);
    TakenBelow(order, j, k, n);
    assert order == order[..j] + ([order[j]] + order[j + 1..]);
    AutoRowsConcat(order[..j], [order[j]] + order[j + 1..], k);
    AutoRowsConcat([order[j]], order[j + 1..], k);
    assert AutoRows([order[j]], k) == [order[j]];
  }

  lemma DecideUsable(log: seq<Event>, r: Row)
    requires Usable(r)
    ensures var e := Decide(log, r); e.Placed? && e.id == Asks(r) && (e.Reserved() <==> Asks(r) !in Used(log))
    ensures !Decide(log, r).IsAuto()
  {}

  lemma SafeKeeps(rows: seq<Row>, order: seq<Row>, r: Row)
    requires multiset(order) == multiset(rows) && Usable(r) && Safe(rows, r)
    ensures KeepsNumber(order, r)
  {
    var k, n := r.kind.value, r.instance.n;
    SameRows(order, rows);
    AutoRowsReordered(order, rows, k);
    assert LowNumbers(order, k, n) == LowNumbers(rows, k, n);
    forall i | 0 <= i < |order| && order[i] == r 
      ensures Load(order)[i].Reserved() && Load(order)[i].id == Asks(r)
    {
      LoadAt(order, i);
      DecideUsable(Load(order)[..i], r);
      forall j | 0 <= j < i && Load(order)[j].Reserved() ensures Load(order)[j].id != Asks(r) {
        LoadAt(order, j);
        TwoPlaces(order, j, i);
        if Load(order)[j].IsAuto() && Load(order)[j].id == Asks(r) {
          AutoCannotReach(order, j, k, n);
        }
        assert order[j] in rows && (Usable(order[j]) || IsGoodAuto(order[j], k) || order[j].kind != r.kind);
      }
      ExplicitKeepsNumber(order, i);
    }
  }

  // ---------- an unsafe number is lost in some order ----------

  lemma {:induction false} Listing(m: multiset<Row>) returns (s: seq<Row>)
    ensures multiset(s) == m
    decreases |m|
  {
    if m == multiset{} {
      s := [];
    } else {
      var r :| r in m;
      s := Listing(m - multiset{r});
      s := s + [r];
    }
  }

  /** Any part of a file can be moved to its front. */
  lemma MoveToFront(rows: seq<Row>, front: seq<Row>) returns (order: seq<Row>)
    requires multiset(front) <= multiset(rows)
    ensures multiset(order) == multiset(rows) && front <= order
  {
    var rest := Listing(multiset(rows) - multiset(front));
    order := front + rest;
  }

  /** A row that is lost behind a part of the file is lost in the file when that part comes first. */
  lemma LostInFront(rows: seq<Row>, front: seq<Row>, r: Row) returns (order: seq<Row>)
    requires multiset(front + [r]) <= multiset(rows)
    requires Usable(r) && Asks(r) in Used(Load(front))
    ensures multiset(order) == multiset(rows) && !KeepsNumber(order, r)
  {
    order := MoveToFront(rows, front + [r]);
    var i := |front|;
    assert order[..i] == front && order[i] == r;
    LoadPrefix(order, i);
    LoadAt(order, i);
    DecideUsable(Load(front), r);
    assert !Load(order)[i].Reserved();
  }

  /** Rows that ask for different low numbers, one for each number asked for. */
  predicate Picks(low: seq<Row>, k: Kind, n: int) {
    && (forall r :: r in low ==> AsksBelow(r, k, n))
    && forall i, j :: 0 <= i < j < |low| ==> Number(low[i]) != Number(low[j])
  }

  lemma LowMore(rows: seq<Row>, r: Row, k: Kind, n: int)
    ensures LowNumbers(rows + [r], k, n) == LowNumbers(rows, k, n) + if AsksBelow(r, k, n) then {Number(r)} else {}
  {
    var more := rows + [r];
    assert forall s :: s in more <==> s in rows || s == r;
    assert r in more;
  }

  lemma PicksMore(low: seq<Row>, r: Row, k: Kind, n: int)
    requires Picks(low, k, n) && AsksBelow(r, k, n) && Number(r) !in LowNumbers(low, k, n)
    ensures Picks(low + [r], k, n)
  {
    forall i | 0 <= i < |low| ensures Number(low[i]) != Number(r) {
      assert low[i] in low;
    }
  }

  lemma {:induction false} PickLow(rows: seq<Row>, k: Kind, n: int) returns (low: seq<Row>)
    ensures Picks(low, k, n) && LowNumbers(low, k, n) == LowNumbers(rows, k, n)
    ensures forall r :: r in low ==> r in rows
  {
    if rows == [] {
      low := [];
    } else {
      var most, last := rows[..|rows| - 1], rows[|rows| - 1];
      low := PickLow(most, k, n);
      assert rows == most + [last];
      LowMore(most, last, k, n);
      if AsksBelow(last, k, n) && Number(last) !in LowNumbers(low, k, n) {
        PicksMore(low, last, k, n);
        LowMore(low, last, k, n);
        low := low + [last];
      }
    }
  }

  lemma PicksLess(low: seq<Row>, k: Kind, n: int)
    requires Picks(low, k, n) && low != []
    ensures var most, last := low[..|low| - 1], low[|low| - 1];
            && Picks(most, k, n) && AsksBelow(last, k, n) && Number(last) !in LowNumbers(most, k, n)
            && LowNumbers(low, k, n) == LowNumbers(most, k, n) + {Number(last)}
  {
    var most, last := low[..|low| - 1], low[|low| - 1];
    assert low == most + [last];
    LowMore(most, last, k, n);
    assert last in low;
    assert forall i :: 0 <= i < |most| ==> low[i] == most[i];
  }

  lemma {:induction false} LoadLow(low: seq<Row>, k: Kind, n: int)
    requires Picks(low, k, n)
    ensures forall d :: d in Taken(Load(low)) <==> d.kind == k && d.instance in LowNumbers(low, k, n)
    ensures |LowNumbers(low, k, n)| == |low|
  {
    if low != [] {
      var most, last := low[..|low| - 1], low[|low| - 1];
      PicksLess(low, k, n);
      LoadLow(most, k, n);
      DecideUsable(Load(most), last);
      OneMore(Load(most), Decide(Load(most), last));
    }
  }

  function Taken(log: seq<Event>): set<Ident> {
    Used(log) + Handed(log)
  }

  /** The numbers below `n` that are still free. */
  ghost function Free(taken: set<Ident>, k: Kind, n: int): set<int>
    requires n >= 1
  {
    set m | m in Span(1, n) && Ident(k, m) !in taken
  }

  lemma FreeLess(taken: set<Ident>, k: Kind, n: int, m: int)
    requires n >= 1 && m in Free(taken, k, n)
    ensures |Free(taken + {Ident(k, m)}, k, n)| == |Free(taken, k, n)| - 1
  {
    assert Free(taken + {Ident(k, m)}, k, n) == Free(taken, k, n) - {m};
  }

  lemma AutoDecided(log: seq<Event>, row: Row, k: Kind, n: int)
    requires IsAutoRow(row, k) && 1 <= n <= MAX_INSTANCE && Ident(k, n) !in Taken(log)
    ensures var e := Decide(log, row);
            && e.AutoOf(k) && 1 <= e.id.instance <= n && e.id !in Taken(log)
            && forall m :: 1 <= m < e.id.instance ==> Ident(k, m) in Taken(log)
  {
    assert Instance(row, Taken(log)) == LeastFree(k, Taken(log), 1);
  }

  lemma AutoTakes(log: seq<Event>, row: Row, k: Kind, n: int)
    requires IsAutoRow(row, k) && 1 <= n <= MAX_INSTANCE && Ident(k, n) !in Taken(log)
    ensures var e := Decide(log, row);
            && e.AutoOf(k) && Taken(log + [e]) == Taken(log) + {e.id}
            && e.id.instance in Free(Taken(log), k, n) + {n}
            && (Free(Taken(log), k, n) == {} <==> e.id.instance == n)
  {
    AutoDecided(log, row, k, n);
    OneMore(log, Decide(log, row));
  }

  /** So many numbers below `n` are free, and `n` itself is, too. */
  ghost predicate Gaps(log: seq<Event>, k: Kind, n: int, gaps: int)
    requires n >= 1
  {
    |Free(Taken(log), k, n)| == gaps && Ident(k, n) !in Taken(log)
  }

  /** One more auto row fills one more gap. */
  lemma FillStep(log: seq<Event>, row: Row, k: Kind, n: int, gaps: int)
    requires IsAutoRow(row, k) && 1 <= n <= MAX_INSTANCE && Gaps(log, k, n, gaps) && gaps > 0
    ensures Gaps(log + [Decide(log, row)], k, n, gaps - 1)
  {
    AutoTakes(log, row, k, n);
    FreeLess(Taken(log), k, n, Decide(log, row).id.instance);
  }

  lemma FreeBesides(taken: set<Ident>, k: Kind, n: int, numbers: set<int>)
    requires n >= 1 && numbers <= Span(1, n)
    requires forall m :: Ident(k, m) in taken <==> m in numbers
    ensures |Free(taken, k, n)| == n - 1 - |numbers|
  {
    assert Free(taken, k, n) == Span(1, n) - numbers;
  }

  lemma GapsLeft(low: seq<Row>, k: Kind, n: int)
    requires Picks(low, k, n) && 1 <= n
    ensures Gaps(Load(low), k, n, n - 1 - |low|)
  {
    LoadLow(low, k, n);
    assert forall m :: Ident(k, m) in Taken(Load(low)) <==> Ident(k, m).instance in LowNumbers(low, k, n);
    FreeBesides(Taken(Load(low)), k, n, LowNumbers(low, k, n));
  }

  lemma LoadSnoc(rows: seq<Row>, r: Row)
    ensures Load(rows + [r]) == Load(rows) + [Decide(Load(rows), r)]
  {
    assert (rows + [r])[..|rows|] == rows;
  }

  lemma {:induction false} FillGaps(low: seq<Row>, fill: seq<Row>, k: Kind, n: int)
    requires Picks(low, k, n) && 1 <= n <= MAX_INSTANCE
    requires forall r :: r in fill ==> IsAutoRow(r, k)
    requires |low| + |fill| <= n - 1
    ensures Gaps(Load(low + fill), k, n, n - 1 - |low| - |fill|)
  {
    if fill == [] {
      assert low + fill == low;
      GapsLeft(low, k, n);
    } else {
      var most, last := fill[..|fill| - 1], fill[|fill| - 1];
      FillGaps(low, most, k, n);
      FillStep(Load(low + most), last, k, n, n - 1 - |low| - |most|);
      LoadSnoc(low + most, last);
      assert low + fill == low + most + [last];
    }
  }

  /** Once the gaps below are filled, the next good auto row takes the number. */
  lemma GoodAutoTakes(low: seq<Row>, fill: seq<Row>, g: Row, k: Kind, n: int)
    requires Picks(low, k, n) && 1 <= n <= MAX_INSTANCE
    requires (forall r :: r in fill ==> IsAutoRow(r, k)) && IsGoodAuto(g, k)
    requires |low| + |fill| == n - 1
    ensures Ident(k, n) in Used(Load(low + fill + [g]))
  {
    FillGaps(low, fill, k, n);
    var log := Load(low + fill);
    AutoTakes(log, g, k, n);
    LoadSnoc(low + fill, g);
    OneMore(log, Decide(log, g));
  }

  lemma TakeSome<T>(s: seq<T>, x: T, count: nat) returns (some: seq<T>)
    requires x in s && count < |s|
    ensures |some| == count && multiset(some + [x]) <= multiset(s)
  {
    var p :| 0 <= p < |s| && s[p] == x;
    var others := s[..p] + s[p + 1..];
    some := others[..count];
    assert s == s[..p] + ([x] + s[p + 1..]);
    assert others == some + others[count..];
    assert multiset(s) == multiset(others) + multiset{x};
  }

  /** Filling auto rows and the good one, from the auto rows of the file. */
  lemma ChooseFill(rows: seq<Row>, g: Row, k: Kind, gaps: nat) returns (fill: seq<Row>)
    requires g in rows && IsGoodAuto(g, k) && gaps < |AutoRows(rows, k)|
    ensures |fill| == gaps && multiset(fill + [g]) <= multiset(AutoRows(rows, k))
  {
    AutoRowsCount(rows, k, g);
    assert g in multiset(AutoRows(rows, k));
    fill := TakeSome(AutoRows(rows, k), g, gaps);
  }

  lemma {:induction false} PicksOnce(low: seq<Row>, k: Kind, n: int, r: Row)
    requires Picks(low, k, n)
    ensures multiset(low)[r] <= if r in low then 1 else 0
  {
    if low != [] {
      var most, last := low[..|low| - 1], low[|low| - 1];
      assert low == most + [last];
      PicksOnce(most, k, n, r);
    }
  }

  /** Three parts that share no row fit together where each fits. */
  lemma PartsFit(rows: seq<Row>, low: seq<Row>, autos: seq<Row>, r: Row)
    requires multiset(low) <= multiset(rows) && multiset(autos) <= multiset(rows) && r in rows
    requires forall s :: s in low ==> s !in autos && s != r
    requires r !in autos
    ensures multiset(low + autos + [r]) <= multiset(rows)
  {
    forall s ensures multiset(low + autos + [r])[s] <= multiset(rows)[s] {
      assert multiset(low + autos + [r])[s] == multiset(low)[s] + multiset(autos)[s] + multiset([r])[s];
      assert s in multiset(low) <==> s in low;
      assert s in multiset(autos) <==> s in autos;
      assert r in multiset(rows);
    }
  }

  lemma PartOfAutos(rows: seq<Row>, part: seq<Row>, k: Kind)
    requires multiset(part) <= multiset(AutoRows(rows, k))
    ensures multiset(part) <= multiset(rows)
    ensures forall s :: s in part ==> IsAutoRow(s, k)
  {
    forall s ensures multiset(part)[s] <= multiset(rows)[s] && (s in part ==> IsAutoRow(s, k)) {
      AutoRowsCount(rows, k, s);
      assert s in part ==> s in multiset(part);
    }
  }

  lemma LowFits(rows: seq<Row>, low: seq<Row>, k: Kind, n: int)
    requires Picks(low, k, n) && forall s :: s in low ==> s in rows
    ensures multiset(low) <= multiset(rows)
  {
    forall s ensures multiset(low)[s] <= multiset(rows)[s] {
      PicksOnce(low, k, n, s);
      assert s in rows ==> s in multiset(rows);
    }
  }

  lemma FrontFits(rows: seq<Row>, low: seq<Row>, fill: seq<Row>, g: Row, r: Row, k: Kind, n: int)
    requires Picks(low, k, n) && (forall s :: s in low ==> s in rows) && r in rows
    requires Usable(r) && r.kind.value == k && r.instance.n == n
    requires multiset(fill + [g]) <= multiset(AutoRows(rows, k))
    ensures multiset(low + fill + [g] + [r]) <= multiset(rows)
    ensures forall s :: s in fill ==> IsAutoRow(s, k)
  {
    PartOfAutos(rows, fill + [g], k);
    LowFits(rows, low, k, n);
    PartsFit(rows, low, fill + [g], r);
    assert low + (fill + [g]) + [r] == low + fill + [g] + [r];
    assert forall s :: s in fill ==> s in fill + [g];
  }

  lemma ReachedIsLost(rows: seq<Row>, r: Row, g: Row) returns (order: seq<Row>)
    requires r in rows && g in rows && Usable(r) && r.instance.n != 0 && IsGoodAuto(g, r.kind.value)
    requires |AutoRows(rows, r.kind.value)| + |LowNumbers(rows, r.kind.value, r.instance.n)| >= r.instance.n
    ensures multiset(order) == multiset(rows) && !KeepsNumber(order, r)
  {
    var k, n := r.kind.value, r.instance.n;
    var low := PickLow(rows, k, n);
    LoadLow(low, k, n);
    SubsetSize(LowNumbers(rows, k, n), Span(1, n));
    var fill := ChooseFill(rows, g, k, n - 1 - |low|);
    FrontFits(rows, low, fill, g, r, k, n);
    GoodAutoTakes(low, fill, g, k, n);
    order := LostInFront(rows, low + fill + [g], r);
  }

  lemma SharedIsLost(rows: seq<Row>, r: Row, s: Row) returns (order: seq<Row>)
    requires r in rows && s in rows && Usable(r) && Usable(s) && Asks(s) == Asks(r)
    requires r == s ==> multiset(rows)[r] >= 2
    ensures multiset(order) == multiset(rows) && !KeepsNumber(order, r)
  {
    assert [s][..0] == [] && Load([s]) == [] + [Decide([], s)];
    DecideUsable([], s);
    OneMore([], Decide([], s));
    forall x ensures multiset([s] + [r])[x] <= multiset(rows)[x] {
      assert multiset([s] + [r])[x] == multiset([s])[x] + multiset([r])[x];
      assert x in rows ==> multiset(rows)[x] > 0;
    }
    order := LostInFront(rows, [s], r);
  }

  /** The documented promise for one row: an acceptable explicit row keeps its number in every order of the
      file exactly when no other acceptable row asks for it and the auto rows of its kind cannot reach it. */
  lemma KeepsInEveryOrderIff(rows: seq<Row>, r: Row)
    requires r in rows && Usable(r)
    ensures (forall order :: multiset(order) == multiset(rows) ==> KeepsNumber(order, r)) <==> Safe(rows, r)
  {
    var k := r.kind.value;
    assert multiset(rows)[r] >= 1;
    if Safe(rows, r) {
      forall order | multiset(order) == multiset(rows) ensures KeepsNumber(order, r) {
        SafeKeeps(rows, order, r);
      }
    } else if multiset(rows)[r] >= 2 {
      var order := SharedIsLost(rows, r, r);
    } else if s :| s in rows && s != r && Usable(s) && Asks(s) == Asks(r) {
      var order := SharedIsLost(rows, r, s);
    } else {
      var g :| g in rows && IsGoodAuto(g, k);
      var order := ReachedIsLost(rows, r, g);
    }
  }
}
