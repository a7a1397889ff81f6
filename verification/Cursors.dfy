/** The loader's scanning memory: one cursor for each kind. It only ever looks at reserved identifiers, yet
    it finds the least free number, and what it moves is accounted for. */
module Cursors {

  import opened Wrappers
  import opened Points
  import L = LoaderSpec

  /** Where the scan of an auto row stops: at the first number from the cursor on that is not reserved, or
      just past the range. */
  function ScanEnd(k: Kind, used: set<Ident>, cursor: int): (end: int)
    requires 1 <= cursor <= MAX_INSTANCE + 1
    ensures cursor <= end <= MAX_INSTANCE + 1
    ensures forall n :: cursor <= n < end ==> Ident(k, n) in used
    ensures end <= MAX_INSTANCE ==> Ident(k, end) !in used
    decreases MAX_INSTANCE + 1 - cursor
  {
    if cursor <= MAX_INSTANCE && Ident(k, cursor) in used then ScanEnd(k, used, cursor + 1) else cursor
  }

  /** The cursor moves past a number it hands out. */
  function Past(end: int): int {
    if end <= MAX_INSTANCE then end + 1 else end
  }

  /** An auto-numbered row of a kind. */
  predicate IsAutoRow(row: Row, k: Kind) {
    row.name != "" && row.kind == Some(k) && row.instance.Auto?
  }

  /** The cursor of a kind after the rows of a file. */
  function CursorAfter(rows: seq<Row>, k: Kind): (cursor: int)
    ensures 1 <= cursor <= MAX_INSTANCE + 1
  {
    if rows == [] then 1
    else
      var most := rows[..|rows| - 1];
      if IsAutoRow(rows[|rows| - 1], k) then Past(ScanEnd(k, L.Used(L.Load(most)), CursorAfter(most, k)))
      else CursorAfter(most, k)
  }

  /** How often the scan loop ran for a kind. */
  function ScanSteps(rows: seq<Row>, k: Kind): nat {
    if rows == [] then 0
    else
      var most := rows[..|rows| - 1];
      ScanSteps(most, k)
      + if IsAutoRow(rows[|rows| - 1], k)
        then ScanEnd(k, L.Used(L.Load(most)), CursorAfter(most, k)) - CursorAfter(most, k)
        else 0
  }

  /** The numbers the scans passed over. */
  ghost function Passed(rows: seq<Row>, k: Kind): set<int> {
    if rows == [] then {}
    else
      var most := rows[..|rows| - 1];
      Passed(most, k)
      + if IsAutoRow(rows[|rows| - 1], k)
        then Span(CursorAfter(most, k), ScanEnd(k, L.Used(L.Load(most)), CursorAfter(most, k)))
        else {}
  }

  ghost function Span(from: int, end: int): (s: set<int>)
    requires from <= end
    ensures forall n :: n in s <==> from <= n < end
    ensures |s| == end - from
    decreases end - from
  {
    if from == end then {} else Span(from, end - 1) + {end - 1}
  }

  lemma RowMoves(done: seq<Row>, row: Row, k: Kind)
    ensures var cursor := CursorAfter(done, k);
            var end := ScanEnd(k, L.Used(L.Load(done)), cursor);
            && CursorAfter(done + [row], k) == (if IsAutoRow(row, k) then Past(end) else cursor)
            && ScanSteps(done + [row], k) == ScanSteps(done, k) + if IsAutoRow(row, k) then end - cursor else 0
  {
    assert (done + [row])[..|done|] == done;
  }

  /** What a cursor means: below it every number is taken, handed numbers are below it, and each step it made
      either handed out a number or passed over one that an explicit row reserved. */
  ghost predicate CursorTells(k: Kind, cursor: int, log: seq<L.Event>, passed: set<int>) {
    && 1 <= cursor <= MAX_INSTANCE + 1
    && (forall n :: 1 <= n < cursor ==> Ident(k, n) in L.Used(log) + L.Handed(log))
    && (forall n :: Ident(k, n) in L.Handed(log) ==> 1 <= n < cursor)
    && (forall n :: n in passed ==> n < cursor)
    && passed <= L.ExplicitNumbers(log, k)
    && cursor - 1 == L.AutoCount(log, k) + |passed|
  }

  /** Passing over reserved numbers: none was handed out, so explicit rows hold them all. */
  lemma CursorSkips(k: Kind, cursor: int, log: seq<L.Event>, passed: set<int>, end: int)
    requires CursorTells(k, cursor, log, passed) && cursor <= end <= MAX_INSTANCE + 1
    requires forall n :: cursor <= n < end ==> Ident(k, n) in L.Used(log)
    ensures |passed + Span(cursor, end)| == |passed| + end - cursor
    ensures CursorTells(k, end, log, passed + Span(cursor, end))
  {
    assert passed !! Span(cursor, end);
    forall n | n in Span(cursor, end) ensures n in L.ExplicitNumbers(log, k) {
      var e :| e in log && e.Reserved() && e.id == Ident(k, n);
      assert e.IsAuto() ==> Ident(k, n) in L.Handed(log);
      assert e.ExplicitOf(k);
    }
  }

  /** Recording the row's event, and stepping past the number it was handed, if any. */
  lemma CursorRecords(k: Kind, cursor: int, log: seq<L.Event>, passed: set<int>, e: L.Event)
    requires CursorTells(k, cursor, log, passed)
    requires e.AutoOf(k) ==> e.id.instance == cursor <= MAX_INSTANCE
    ensures CursorTells(k, cursor + if e.AutoOf(k) then 1 else 0, log + [e], passed)
  {
    var log' := log + [e];
    assert log'[..|log|] == log;
    assert forall f :: f in log' <==> f in log || f == e;
    assert L.Used(log) <= L.Used(log');
    assert L.Handed(log') == L.Handed(log) + if e.IsAuto() then {e.id} else {};
    assert L.ExplicitNumbers(log, k) <= L.ExplicitNumbers(log', k);
  }

  lemma {:induction false} ScanIsLeastFree(k: Kind, used: set<Ident>, cursor: int)
    requires 1 <= cursor <= MAX_INSTANCE + 1
    ensures L.LeastFree(k, used, cursor) ==
            var end := ScanEnd(k, used, cursor); if end <= MAX_INSTANCE then Some(end) else None
    decreases MAX_INSTANCE + 1 - cursor
  {
    if cursor <= MAX_INSTANCE && Ident(k, cursor) in used {
      ScanIsLeastFree(k, used, cursor + 1);
    }
  }

  /** The scan finds what the history decides. */
  lemma ScanDecides(k: Kind, cursor: int, log: seq<L.Event>, passed: set<int>, row: Row)
    requires CursorTells(k, cursor, log, passed) && IsAutoRow(row, k)
    ensures var e, end := L.Decide(log, row), ScanEnd(k, L.Used(log), cursor);
            if end <= MAX_INSTANCE then e.AutoOf(k) && e.id == Ident(k, end) else e.Dropped?
  {
    L.CursorSuffices(k, L.Used(log), L.Handed(log), 1, cursor);
    ScanIsLeastFree(k, L.Used(log), cursor);
  }

  lemma CursorAfterRow(k: Kind, cursor: int, log: seq<L.Event>, passed: set<int>, row: Row)
    requires CursorTells(k, cursor, log, passed)
    ensures var end := ScanEnd(k, L.Used(log), cursor);
            var passed' := passed + if IsAutoRow(row, k) then Span(cursor, end) else {};
            && |passed'| == |passed| + (if IsAutoRow(row, k) then end - cursor else 0)
            && CursorTells(k, if IsAutoRow(row, k) then Past(end) else cursor, log + [L.Decide(log, row)], passed')
  {
    var e, end := L.Decide(log, row), ScanEnd(k, L.Used(log), cursor);
    if IsAutoRow(row, k) {
      ScanDecides(k, cursor, log, passed, row);
      CursorSkips(k, cursor, log, passed, end);
      CursorRecords(k, end, log, passed + Span(cursor, end), e);
    } else {
      assert !e.AutoOf(k);
      CursorRecords(k, cursor, log, passed, e);
      assert passed + {} == passed;
    }
  }

  lemma {:induction false} CursorHolds(rows: seq<Row>, k: Kind)
    ensures CursorTells(k, CursorAfter(rows, k), L.Load(rows), Passed(rows, k))
    ensures |Passed(rows, k)| == ScanSteps(rows, k)
  {
    if rows != [] {
      var most, last := rows[..|rows| - 1], rows[|rows| - 1];
      CursorHolds(most, k);
      CursorAfterRow(k, CursorAfter(most, k), L.Load(most), Passed(most, k), last);
    }
  }

  /** Conservation over a whole load: what a cursor moved is what it handed out plus what its scans passed
      over, the scans pass over no more numbers than explicit rows reserved, and every number below the
      cursor is taken. */
  lemma {:induction false} CursorsConserve(rows: seq<Row>, k: Kind)
    ensures CursorAfter(rows, k) - 1 == L.AutoCount(L.Load(rows), k) + ScanSteps(rows, k)
    ensures ScanSteps(rows, k) <= L.ExplicitCount(L.Load(rows), k)
    ensures forall n :: 1 <= n < CursorAfter(rows, k) ==>
              Ident(k, n) in L.Used(L.Load(rows)) + L.Handed(L.Load(rows))
  {
    CursorHolds(rows, k);
    L.SubsetSize(Passed(rows, k), L.ExplicitNumbers(L.Load(rows), k));
    L.ExplicitNumbersBound(L.Load(rows), k);
  }

  /** The identifier of a row with a name and a kind, from the cursor and the reserved identifiers alone. */
  lemma DecidedByCursor(done: seq<Row>, row: Row)
    requires row.name != "" && row.kind.Some?
    ensures var k := row.kind.value;
            var e, end := L.Decide(L.Load(done), row), ScanEnd(k, L.Used(L.Load(done)), CursorAfter(done, k));
            var number := if !row.instance.Auto? then L.Instance(row, {})
                          else if end <= MAX_INSTANCE then Some(end) else None;
            if number.Some? then e.Placed? && e.id == Ident(k, number.value) else e.Dropped?
  {
    var k := row.kind.value;
    CursorHolds(done, k);
    if row.instance.Auto? {
      ScanDecides(k, CursorAfter(done, k), L.Load(done), Passed(done, k), row);
    }
  }
}
