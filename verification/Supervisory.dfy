/** The supervisory check: priority-array answers regrouped by object, sorted, and reported as overrides, both
    in one flat list and object by object. */
module Supervisory {

  import opened Wrappers
  import opened Counting
  import opened Identifiers
  import opened Rpm
  import opened Reading
  import opened Sessions
  import opened Discovery

  type Slot = (int, Encoded)

  datatype Override = Override(level: int, typeName: string, value: Encoded)

  datatype FlatEntry = FlatEntry(id: string, name: string, setting: Override)

  datatype OverrideGroup = OverrideGroup(id: string, name: string, levels: seq<int>, multiple: bool,
                                         overrides: seq<Override>)

  datatype Summary = Summary(total: nat, withArray: nat, withoutArray: nat, overridden: nat)

  // ---------- slots by object ----------

  function Numbered(values: seq<Encoded>): (slots: seq<Slot>)
    ensures |slots| == |values|
  {
    seq(|values|, i requires 0 <= i < |values| => (i, values[i]))
  }

  /** A list without an array index is a whole priority array; anything else is one slot. */
  function SlotsIn(e: Entry): seq<Slot> {
    match e
    case Failed => []
    case Answer(_, None, value) => WholeSlots(value)
    case Answer(_, Some(index), value) => [(index, value)]
  }

  function WholeSlots(value: Encoded): seq<Slot> {
    if value.Slots? then Numbered(value.slots) else [(0, value)]
  }

  /** All slots answered for an object, in the order of the answers. */
  function SlotsFor(entries: seq<Entry>, id: string): seq<Slot> {
    if entries == [] then []
    else
      var last := entries[|entries| - 1];
      SlotsFor(entries[..|entries| - 1], id) + if AnswersFor(last, id) then SlotsIn(last) else []
  }

  predicate Ascending(slots: seq<Slot>) {
    forall i, j :: 0 <= i < j < |slots| ==> slots[i].0 <= slots[j].0
  }

  /** Insertion behind equal indices. */
  function Insert(s: Slot, sorted: seq<Slot>): seq<Slot> {
    if sorted == [] || sorted[|sorted| - 1].0 <= s.0 then sorted + [s]
    else Insert(s, sorted[..|sorted| - 1]) + [sorted[|sorted| - 1]]
  }

  /** Sorting by index. */
  function Sort(slots: seq<Slot>): seq<Slot> {
    if slots == [] then [] else Insert(slots[|slots| - 1], Sort(slots[..|slots| - 1]))
  }

  lemma {:induction false} InsertCounts(s: Slot, sorted: seq<Slot>)
    ensures multiset(Insert(s, sorted)) == multiset(sorted) + multiset{s}
  {
    if sorted != [] && sorted[|sorted| - 1].0 > s.0 {
      var most, last := sorted[..|sorted| - 1], sorted[|sorted| - 1];
      InsertCounts(s, most);
      assert sorted == most + [last];
    }
  }

  lemma AscendsMore(slots: seq<Slot>, s: Slot)
    requires Ascending(slots) && forall x :: x in slots ==> x.0 <= s.0
    ensures Ascending(slots + [s])
  {}

  lemma {:induction false} InsertAscends(s: Slot, sorted: seq<Slot>)
    requires Ascending(sorted)
    ensures Ascending(Insert(s, sorted))
  {
    if sorted != [] && sorted[|sorted| - 1].0 > s.0 {
      var most, last := sorted[..|sorted| - 1], sorted[|sorted| - 1];
      InsertAscends(s, most);
      InsertCounts(s, most);
      forall x | x in Insert(s, most) ensures x.0 <= last.0 {
        assert x in multiset(Insert(s, most));
        assert x == s || x in most;
      }
      AscendsMore(Insert(s, most), last);
    }
  }

  /** Sorting orders the slots and keeps each as often as it occurs. */
  lemma {:induction false} SortSorts(slots: seq<Slot>)
    ensures Ascending(Sort(slots)) && multiset(Sort(slots)) == multiset(slots)
  {
    if slots != [] {
      var most, last := slots[..|slots| - 1], slots[|slots| - 1];
      SortSorts(most);
      InsertAscends(last, Sort(most));
      InsertCounts(last, Sort(most));
      assert slots == most + [last];
    }
  }

  function WithIndex(slots: seq<Slot>, i: int): seq<Slot> {
    if slots == [] then []
    else
      var last := slots[|slots| - 1];
      WithIndex(slots[..|slots| - 1], i) + if last.0 == i then [last] else []
  }

  lemma WithIndexMore(slots: seq<Slot>, s: Slot, i: int)
    ensures WithIndex(slots + [s], i) == WithIndex(slots, i) + if s.0 == i then [s] else []
  {
    assert (slots + [s])[..|slots|] == slots;
  }

  lemma {:induction false} InsertIsStable(s: Slot, sorted: seq<Slot>, i: int)
    ensures WithIndex(Insert(s, sorted), i) == WithIndex(sorted, i) + if s.0 == i then [s] else []
  {
    if sorted == [] || sorted[|sorted| - 1].0 <= s.0 {
      WithIndexMore(sorted, s, i);
    } else {
      var most, last := sorted[..|sorted| - 1], sorted[|sorted| - 1];
      InsertIsStable(s, most, i);
      WithIndexMore(Insert(s, most), last, i);
    }
  }

  /** Sorting is stable: slots of one index keep their order. */
  lemma {:induction false} SortIsStable(slots: seq<Slot>, i: int)
    ensures WithIndex(Sort(slots), i) == WithIndex(slots, i)
  {
    if slots != [] {
      SortIsStable(slots[..|slots| - 1], i);
      InsertIsStable(slots[|slots| - 1], Sort(slots[..|slots| - 1]), i);
    }
  }

  /** An ordered list stays as it is. */
  lemma {:induction false} SortKeepsOrder(slots: seq<Slot>)
    requires Ascending(slots)
    ensures Sort(slots) == slots
  {
    if slots != [] {
      SortKeepsOrder(slots[..|slots| - 1]);
    }
  }

  function Get<V>(m: map<string, seq<V>>, k: string): seq<V> {
    if k in m then m[k] else []
  }

  method AppendSlots(byId: map<string, seq<Slot>>, id: string, slots: seq<Slot>)
    returns (more: map<string, seq<Slot>>)
    ensures forall k :: Get(more, k) == Get(byId, k) + if k == id then slots else []
  {
    more := byId;
    for i := 0 to |slots|
      invariant forall k :: Get(more, k) == Get(byId, k) + if k == id then slots[..i] else []
    {
      more := more[id := Get(more, id) + [slots[i]]];
    }
    assert slots[..|slots|] == slots;
  }

  method GroupSlots(entries: seq<Entry>) returns (byId: map<string, seq<Slot>>)
    ensures forall id :: Get(byId, id) == Sort(SlotsFor(entries, id))
  {
    var unsorted: map<string, seq<Slot>> := map[];
    for i := 0 to |entries|
      invariant forall id :: Get(unsorted, id) == SlotsFor(entries[..i], id)
    {
      assert entries[..i + 1][..i] == entries[..i];
      if entries[i].Answer? {
        unsorted := AppendSlots(unsorted, Normalize(entries[i].shown), SlotsIn(entries[i]));
      }
    }
    assert entries[..|entries|] == entries;
    byId := map id | id in unsorted :: Sort(unsorted[id]);
  }

  // ---------- overrides ----------

  predicate HasPrefix(s: string, prefix: string) {
    prefix <= s
  }

  /** The type and value of an active slot; none for a relinquished, empty or faulty one. */
  function Active(v: Encoded): Option<(string, Encoded)> {
    match v
    case Fields(fields) =>
      if fields == [] || exists f :: f in fields && f.0 == "null" then None else Some(fields[0])
    case Nothing => None
    case Word(s) => if s == "null" || HasPrefix(s, "Error:") then None else Some(("str", v))
    case Number(_) => Some(("real", v))
    case Slots(_) => Some(("list", v))
    case Other(t) => Some((t, v))
  }

  function OverrideIn(s: Slot): seq<Override> {
    match Active(s.1)
    case None => []
    case Some((t, v)) => [Override(s.0 + 1, t, v)]
  }

  /** What counts as an override in a slot of any answer, and as what: a choice other than "null", or a plain
      value that is neither missing, nor "null", nor an error. */
  lemma SlotSays(i: int, v: Encoded)
    ensures var o := OverrideIn((i, v));
            match v
            case Fields(fields) =>
              if fields != [] && forall f :: f in fields ==> f.0 != "null"
              then o == [Override(i + 1, fields[0].0, fields[0].1)]
              else o == []
            case Nothing => o == []
            case Word(s) => o == if s == "null" || "Error:" <= s then [] else [Override(i + 1, "str", v)]
            case Number(_) => o == [Override(i + 1, "real", v)]
            case Slots(_) => o == [Override(i + 1, "list", v)]
            case Other(t) => o == [Override(i + 1, t, v)]
  {}

  /** Which slots an answer brings: those of a whole list in order, or one at the answer's own index, counted as
      0 without one. */
  lemma AnswerSays(shown: string, index: Option<int>, v: Encoded)
    ensures var slots := SlotsIn(Answer(shown, index, v));
            if index.None? && v.Slots?
            then |slots| == |v.slots| && forall k :: 0 <= k < |slots| ==> slots[k] == (k, v.slots[k])
            else slots == [(if index.Some? then index.value else 0, v)]
  {}

  function OverridesIn(slots: seq<Slot>): seq<Override> {
    if slots == [] then []
    else OverridesIn(slots[..|slots| - 1]) + OverrideIn(slots[|slots| - 1])
  }

  function Tagged(o: Found, overrides: seq<Override>): seq<FlatEntry> {
    seq(|overrides|, i requires 0 <= i < |overrides| => FlatEntry(o.id, o.name, overrides[i]))
  }

  /** The slots the check looks at: those of a commandable object. */
  function Consulted(o: Found, entries: seq<Entry>): seq<Slot> {
    if o.commandable then Sort(SlotsFor(entries, o.id)) else []
  }

  function Flat(objects: seq<Found>, entries: seq<Entry>): seq<FlatEntry> {
    if objects == [] then []
    else
      var last := objects[|objects| - 1];
      Flat(objects[..|objects| - 1], entries) + Tagged(last, OverridesIn(Consulted(last, entries)))
  }

  function CountWith(objects: seq<Found>, entries: seq<Entry>): nat {
    if objects == [] then 0
    else CountWith(objects[..|objects| - 1], entries)
         + if Consulted(objects[|objects| - 1], entries) != [] then 1 else 0
  }

  // ---------- regrouping ----------

  function Select(points: seq<FlatEntry>, id: string): seq<Override> {
    if points == [] then []
    else
      var last := points[|points| - 1];
      Select(points[..|points| - 1], id) + if last.id == id then [last.setting] else []
  }

  /** The objects that occur, in order of their first occurrence. */
  function Firsts(points: seq<FlatEntry>): seq<string> {
    if points == [] then []
    else
      var before, last := Firsts(points[..|points| - 1]), points[|points| - 1];
      if last.id in before then before else before + [last.id]
  }

  function NameOf(objects: seq<Found>, id: string): string {
    if objects == [] then ""
    else if objects[|objects| - 1].id == id then objects[|objects| - 1].name
    else NameOf(objects[..|objects| - 1], id)
  }

  function Levels(overrides: seq<Override>): seq<int> {
    seq(|overrides|, i requires 0 <= i < |overrides| => overrides[i].level)
  }

  function MakeGroup(objects: seq<Found>, id: string, overrides: seq<Override>): OverrideGroup {
    OverrideGroup(id, NameOf(objects, id), Levels(overrides), |overrides| > 1, overrides)
  }

  /** The grouped report as a function of the flat one. */
  function Regroup(objects: seq<Found>, points: seq<FlatEntry>): seq<OverrideGroup> {
    var ids := Firsts(points);
    seq(|ids|, i requires 0 <= i < |ids| => MakeGroup(objects, ids[i], Select(points, ids[i])))
  }

  function Details(points: seq<FlatEntry>): map<string, seq<Override>> {
    map id | id in Firsts(points) :: Select(points, id)
  }

  /** The dictionary of overrides, which remembers the order of its keys, holds what the flat list holds. */
  ghost predicate Mirrors(order: seq<string>, details: map<string, seq<Override>>, points: seq<FlatEntry>) {
    order == Firsts(points) && details == Details(points)
  }

  lemma FirstsSnoc(points: seq<FlatEntry>, e: FlatEntry)
    ensures Firsts(points + [e]) == if e.id in Firsts(points) then Firsts(points) else Firsts(points) + [e.id]
  {
    assert (points + [e])[..|points|] == points;
  }

  lemma DetailsMore(points: seq<FlatEntry>, e: FlatEntry)
    ensures Firsts(points + [e]) == if e.id in Firsts(points) then Firsts(points) else Firsts(points) + [e.id]
    ensures Details(points + [e]) == Details(points)[e.id := Get(Details(points), e.id) + [e.setting]]
  {
    var more := points + [e];
    assert more[..|points|] == points;
    FirstsAreKeys(points, e.id);
    var after := Details(points)[e.id := Get(Details(points), e.id) + [e.setting]];
    forall id | id in Firsts(more) ensures id in after && Select(more, id) == after[id] {
      assert Select(more, id) == Select(points, id) + if e.id == id then [e.setting] else [];
    }
  }

  /** Appends one override to both reports. */
  method Report(order: seq<string>, details: map<string, seq<Override>>, points: seq<FlatEntry>, e: FlatEntry)
    returns (order': seq<string>, details': map<string, seq<Override>>, points': seq<FlatEntry>)
    requires Mirrors(order, details, points)
    ensures points' == points + [e] && Mirrors(order', details', points')
  {
    DetailsMore(points, e);
    points' := points + [e];
    order' := if e.id in details then order else order + [e.id];
    details' := details[e.id := Get(details, e.id) + [e.setting]];
  }

  lemma TaggedMore(o: Found, slots: seq<Slot>, i: nat)
    requires i < |slots|
    ensures Tagged(o, OverridesIn(slots[..i + 1]))
         == Tagged(o, OverridesIn(slots[..i])) + Tagged(o, OverrideIn(slots[i]))
  {
    assert slots[..i + 1][..i] == slots[..i];
  }

  method ReportSlot(o: Found, slot: Slot, order: seq<string>, details: map<string, seq<Override>>,
                    points: seq<FlatEntry>)
    returns (order': seq<string>, details': map<string, seq<Override>>, points': seq<FlatEntry>)
    requires Mirrors(order, details, points)
    ensures points' == points + Tagged(o, OverrideIn(slot)) && Mirrors(order', details', points')
  {
    order', details', points' := order, details, points;
    match Active(slot.1) {
      case None =>
      case Some((t, v)) =>
        var e := FlatEntry(o.id, o.name, Override(slot.0 + 1, t, v));
        assert Tagged(o, OverrideIn(slot)) == [e];
        order', details', points' := Report(order, details, points, e);
    }
  }

  /** The inner loop: the slots of one object, skipping those that are not active. */
  method ReportSlots(o: Found, slots: seq<Slot>, order: seq<string>, details: map<string, seq<Override>>,
                     points: seq<FlatEntry>)
    returns (order': seq<string>, details': map<string, seq<Override>>, points': seq<FlatEntry>)
    requires Mirrors(order, details, points)
    ensures points' == points + Tagged(o, OverridesIn(slots)) && Mirrors(order', details', points')
  {
    order', details', points' := order, details, points;
    for i := 0 to |slots|
      invariant points' == points + Tagged(o, OverridesIn(slots[..i])) && Mirrors(order', details', points')
    {
      TaggedMore(o, slots, i);
      order', details', points' := ReportSlot(o, slots[i], order', details', points');
    }
    assert slots[..|slots|] == slots;
  }

  /** One object of the check: whether it has a priority array, and its overrides in both reports. */
  method CheckObject(o: Found, byId: map<string, seq<Slot>>, ghost entries: seq<Entry>, order: seq<string>,
                     details: map<string, seq<Override>>, points: seq<FlatEntry>)
    returns (has: bool, order': seq<string>, details': map<string, seq<Override>>, points': seq<FlatEntry>)
    requires Get(byId, o.id) == Sort(SlotsFor(entries, o.id)) && Mirrors(order, details, points)
    ensures has <==> Consulted(o, entries) != []
    ensures points' == points + Tagged(o, OverridesIn(Consulted(o, entries))) && Mirrors(order', details', points')
  {
    has, order', details', points' := false, order, details, points;
    if o.commandable {
      var slots := Get(byId, o.id);
      if slots != [] {
        has := true;
        order', details', points' := ReportSlots(o, slots, order, details, points);
      }
    }
  }

  method MakeGroups(objects: seq<Found>, order: seq<string>, details: map<string, seq<Override>>,
                    ghost points: seq<FlatEntry>) returns (groups: seq<OverrideGroup>)
    requires Mirrors(order, details, points)
    ensures groups == Regroup(objects, points)
  {
    groups := [];
    for i := 0 to |order|
      invariant groups == Regroup(objects, points)[..i]
    {
      groups := groups + [MakeGroup(objects, order[i], Get(details, order[i]))];
    }
  }

  /** What a group of the report says: the object it is about, by id and name, and the levels of its overrides
      one by one. */
  ghost predicate Describes(g: OverrideGroup, objects: seq<Found>) {
    && (exists o :: o in objects && o.id == g.id && o.name == g.name)
    && |g.levels| == |g.overrides| && forall j :: 0 <= j < |g.levels| ==> g.levels[j] == g.overrides[j].level
  }

  /** What a flat entry says: the commandable object it is about, and one of its overrides. */
  ghost predicate Reports(e: FlatEntry, objects: seq<Found>, entries: seq<Entry>) {
    exists o :: o in objects && o.commandable && o.id == e.id && o.name == e.name
                && e.setting in OverridesIn(Sort(SlotsFor(entries, o.id)))
  }

  lemma {:induction false} FlatReports(objects: seq<Found>, entries: seq<Entry>)
    ensures forall e :: e in Flat(objects, entries) ==> Reports(e, objects, entries)
  {
    if objects != [] {
      var most, last := objects[..|objects| - 1], objects[|objects| - 1];
      FlatReports(most, entries);
      assert forall o :: o in most ==> o in objects;
      forall e | e in Tagged(last, OverridesIn(Consulted(last, entries))) ensures Reports(e, objects, entries) {
        assert last in objects && last.id == e.id;
      }
      forall e | e in Flat(most, entries) ensures Reports(e, objects, entries) {
        assert Reports(e, most, entries);
      }
    }
  }

  /** Every override of a commandable object is in the flat list. */
  lemma {:induction false} FlatMisses(objects: seq<Found>, entries: seq<Entry>, o: Found, v: Override)
    requires o in objects && o.commandable && v in OverridesIn(Sort(SlotsFor(entries, o.id)))
    ensures FlatEntry(o.id, o.name, v) in Flat(objects, entries)
  {
    var most, last := objects[..|objects| - 1], objects[|objects| - 1];
    if o == last {
      var overrides := OverridesIn(Consulted(o, entries));
      var j :| 0 <= j < |overrides| && overrides[j] == v;
      assert Tagged(o, overrides)[j] == FlatEntry(o.id, o.name, v);
    } else {
      assert o in most;
      FlatMisses(most, entries, o, v);
    }
  }

  lemma {:induction false} NameOfFound(objects: seq<Found>, o: Found)
    requires o in objects
    ensures exists f :: f in objects && f.id == o.id && f.name == NameOf(objects, o.id)
  {
    var most, last := objects[..|objects| - 1], objects[|objects| - 1];
    if last.id == o.id {
      assert last in objects;
    } else {
      assert o in most;
      NameOfFound(most, o);
      var f :| f in most && f.id == o.id && f.name == NameOf(most, o.id);
      assert f in objects;
    }
  }

  lemma GroupsDescribe(objects: seq<Found>, entries: seq<Entry>)
    ensures forall g :: g in Regroup(objects, Flat(objects, entries)) ==> Describes(g, objects)
  {
    var points := Flat(objects, entries);
    var ids, groups := Firsts(points), Regroup(objects, points);
    FlatReports(objects, entries);
    forall i | 0 <= i < |ids| ensures Describes(groups[i], objects) {
      FirstIsEntry(points, ids[i]);
      var e :| e in points && e.id == ids[i];
      assert Reports(e, objects, entries);
      var o :| o in objects && o.id == e.id;
      NameOfFound(objects, o);
      assert groups[i].id == ids[i] && groups[i].name == NameOf(objects, ids[i]);
    }
  }

  /** The check itself, given the discovered objects and the answers about their priority arrays. */
  method Summarize(objects: seq<Found>, entries: seq<Entry>)
    returns (points: seq<FlatEntry>, groups: seq<OverrideGroup>, summary: Summary)
    ensures points == Flat(objects, entries)
    ensures groups == Regroup(objects, points)
    ensures summary.total == |objects| && summary.withArray + summary.withoutArray == summary.total
    ensures summary.withArray == CountWith(objects, entries)
    ensures summary.overridden == |groups|
    ensures forall g :: g in groups ==> Describes(g, objects)
    ensures forall e :: e in points ==> Reports(e, objects, entries)
  {
    GroupsDescribe(objects, entries);
    FlatReports(objects, entries);
    var byId := GroupSlots(entries);
    var order: seq<string>, details: map<string, seq<Override>> := [], map[];
    var total: nat, withArray: nat, withoutArray: nat := 0, 0, 0;
    points := [];
    for i := 0 to |objects|
      invariant total == i && withArray + withoutArray == total && withArray == CountWith(objects[..i], entries)
      invariant points == Flat(objects[..i], entries) && Mirrors(order, details, points)
    {
      assert objects[..i + 1][..i] == objects[..i];
      var has;
      has, order, details, points := CheckObject(objects[i], byId, entries, order, details, points);
      total := total + 1;
      if has {
        withArray := withArray + 1;
      } else {
        withoutArray := withoutArray + 1;
      }
    }
    assert objects[..|objects|] == objects;
    groups := MakeGroups(objects, order, details, points);
    summary := Summary(total, withArray, withoutArray, |groups|);
  }

  // ---------- conservation ----------

  lemma {:induction false} FirstsAreKeys(points: seq<FlatEntry>, id: string)
    ensures id in Firsts(points) <==> Select(points, id) != []
    ensures forall i, j :: 0 <= i < j < |Firsts(points)| ==> Firsts(points)[i] != Firsts(points)[j]
  {
    if points != [] {
      FirstsAreKeys(points[..|points| - 1], id);
    }
  }

  function Total(points: seq<FlatEntry>, ids: seq<string>): nat {
    if ids == [] then 0 else Total(points, ids[..|ids| - 1]) + |Select(points, ids[|ids| - 1])|
  }

  lemma {:induction false} TotalMore(points: seq<FlatEntry>, e: FlatEntry, ids: seq<string>)
    requires forall i, j :: 0 <= i < j < |ids| ==> ids[i] != ids[j]
    ensures Total(points + [e], ids) == Total(points, ids) + if e.id in ids then 1 else 0
  {
    if ids != [] {
      var most, last := ids[..|ids| - 1], ids[|ids| - 1];
      TotalMore(points, e, most);
      assert (points + [e])[..|points|] == points;
      assert ids == most + [last];
    }
  }

  lemma TotalSnoc(points: seq<FlatEntry>, ids: seq<string>, id: string)
    ensures Total(points, ids + [id]) == Total(points, ids) + |Select(points, id)|
  {
    assert (ids + [id])[..|ids|] == ids;
  }

  lemma SelectSnoc(points: seq<FlatEntry>, e: FlatEntry)
    ensures Select(points + [e], e.id) == Select(points, e.id) + [e.setting]
  {
    assert (points + [e])[..|points|] == points;
  }

  lemma TotalStep(points: seq<FlatEntry>, e: FlatEntry)
    ensures Total(points + [e], Firsts(points + [e])) == Total(points, Firsts(points)) + 1
  {
    var ids, more := Firsts(points), points + [e];
    FirstsAreKeys(points, e.id);
    TotalMore(points, e, ids);
    FirstsSnoc(points, e);
    if e.id !in ids {
      SelectSnoc(points, e);
      TotalSnoc(more, ids, e.id);
    }
  }

  lemma {:induction false} TotalIsLength(points: seq<FlatEntry>)
    ensures Total(points, Firsts(points)) == |points|
  {
    if points != [] {
      TotalIsLength(points[..|points| - 1]);
      TotalStep(points[..|points| - 1], points[|points| - 1]);
      assert points == points[..|points| - 1] + [points[|points| - 1]];
    }
  }

  /** No override is lost or invented by grouping: the groups are about different objects, none is empty, the
      sizes add up to the flat list, and several overrides are reported exactly for longer groups. */
  lemma GroupsConserve(objects: seq<Found>, points: seq<FlatEntry>)
    ensures var groups := Regroup(objects, points);
            && (forall i, j :: 0 <= i < j < |groups| ==> groups[i].id != groups[j].id)
            && (forall i :: 0 <= i < |groups| ==>
                  && groups[i].overrides == Select(points, groups[i].id) != []
                  && (groups[i].multiple <==> |groups[i].overrides| > 1))
            && (forall e :: e in points ==> exists i :: 0 <= i < |groups| && groups[i].id == e.id)
            && Total(points, Firsts(points)) == |points|
  {
    var ids := Firsts(points);
    forall i | 0 <= i < |ids| ensures Select(points, ids[i]) != [] {
      FirstsAreKeys(points, ids[i]);
    }
    FirstsAreKeys(points, "");
    TotalIsLength(points);
    forall e | e in points ensures exists i :: 0 <= i < |ids| && ids[i] == e.id {
      EntryIsFirst(points, e);
    }
    var groups := Regroup(objects, points);
    assert forall i :: 0 <= i < |ids| ==> groups[i].id == ids[i];
  }

  lemma {:induction false} EntryIsFirst(points: seq<FlatEntry>, e: FlatEntry)
    requires e in points
    ensures e.id in Firsts(points)
  {
    var most, last := points[..|points| - 1], points[|points| - 1];
    if e != last {
      assert points == most + [last];
      EntryIsFirst(most, e);
    }
  }

  function Ids(points: seq<FlatEntry>): set<string> {
    set e | e in points :: e.id
  }

  lemma IdsMore(points: seq<FlatEntry>, o: Found, overrides: seq<Override>)
    ensures Ids(points + Tagged(o, overrides)) == Ids(points) + if overrides == [] then {} else {o.id}
  {
    var more := Tagged(o, overrides);
    assert forall e :: e in points + more <==> e in points || e in more;
    assert forall e :: e in more ==> e.id == o.id;
    assert overrides != [] ==> more[0] in more && more[0].id == o.id;
  }

  lemma {:induction false} IdsBound(objects: seq<Found>, entries: seq<Entry>)
    ensures |Ids(Flat(objects, entries))| <= CountWith(objects, entries)
  {
    if objects != [] {
      var most, last := objects[..|objects| - 1], objects[|objects| - 1];
      IdsBound(most, entries);
      IdsMore(Flat(most, entries), last, OverridesIn(Consulted(last, entries)));
    }
  }

  lemma {:induction false} DistinctSize(ids: seq<string>)
    requires forall i, j :: 0 <= i < j < |ids| ==> ids[i] != ids[j]
    ensures |set x | x in ids| == |ids|
  {
    if ids != [] {
      var most, last := ids[..|ids| - 1], ids[|ids| - 1];
      DistinctSize(most);
      assert ids == most + [last];
      assert (set x | x in ids) == (set x | x in most) + {last};
    }
  }

  lemma FirstsAreIds(points: seq<FlatEntry>)
    ensures (set x | x in Firsts(points)) == Ids(points)
    ensures |Firsts(points)| == |Ids(points)|
  {
    FirstsAreKeys(points, "");
    DistinctSize(Firsts(points));
    forall x | x in Firsts(points) ensures x in Ids(points) {
      FirstIsEntry(points, x);
    }
    forall e | e in points ensures e.id in Firsts(points) {
      EntryIsFirst(points, e);
    }
  }

  /** There are at most as many overridden objects as objects counted with a priority array. */
  lemma OverriddenHaveArrays(objects: seq<Found>, entries: seq<Entry>)
    ensures |Regroup(objects, Flat(objects, entries))| <= CountWith(objects, entries)
  {
    FirstsAreIds(Flat(objects, entries));
    IdsBound(objects, entries);
  }

  lemma {:induction false} FirstIsEntry(points: seq<FlatEntry>, id: string)
    requires id in Firsts(points)
    ensures exists e :: e in points && e.id == id
  {
    var most, last := points[..|points| - 1], points[|points| - 1];
    if id in Firsts(most) {
      FirstIsEntry(most, id);
      var e :| e in most && e.id == id;
      assert e in points;
    } else {
      assert last in points;
    }
  }

  // ---------- the dense priority array ----------

  /** A slot of a priority array: relinquished, commanded, or unreadable. */
  datatype Priority = Relinquished | Commanded(typeName: string, value: Encoded) | Unreadable(text: string)

  function EncodeSlot(p: Priority): Encoded {
    match p
    case Relinquished => Fields([("null", Slots([]))])
    case Commanded(t, v) => Fields([(t, v)])
    case Unreadable(text) => Word("Error:" + text)
  }

  function EncodeArray(a: seq<Priority>): seq<Encoded> {
    seq(|a|, i requires 0 <= i < |a| => EncodeSlot(a[i]))
  }

  /** No choice but the relinquished one is called "null". */
  predicate WellTyped(a: seq<Priority>) {
    forall p :: p in a && p.Commanded? ==> p.typeName != "null"
  }

  /** The report of a dense array. */
  function Sparse(a: seq<Priority>): seq<Override> {
    OverridesIn(Numbered(EncodeArray(a)))
  }

  lemma SparseMore(a: seq<Priority>, p: Priority)
    requires WellTyped([p])
    ensures Sparse(a + [p]) ==
            Sparse(a) + if p.Commanded? then [Override(|a| + 1, p.typeName, p.value)] else []
  {
    var slots := Numbered(EncodeArray(a + [p]));
    assert slots == Numbered(EncodeArray(a)) + [(|a|, EncodeSlot(p))];
    assert slots[..|a|] == Numbered(EncodeArray(a));
    assert p in [p];
    match p
    case Relinquished =>
      assert ("null", Slots([])) in [("null", Slots([]))];
    case Commanded(t, v) =>
    case Unreadable(text) =>
      assert "Error:" <= "Error:" + text;
  }

  /** The overrides reported for an array are exactly its commanded slots, by level. */
  lemma {:induction false} SparseExactly(a: seq<Priority>, o: Override)
    requires WellTyped(a)
    ensures o in Sparse(a) <==> 1 <= o.level <= |a| && a[o.level - 1] == Commanded(o.typeName, o.value)
  {
    if a != [] {
      var most, last := a[..|a| - 1], a[|a| - 1];
      assert a == most + [last] && last in a;
      assert forall p :: p in most ==> p in a;
      SparseExactly(most, o);
      SparseMore(most, last);
    }
  }

  /** Levels strictly increase. */
  lemma {:induction false} SparseIncreases(a: seq<Priority>)
    requires WellTyped(a)
    ensures forall i, j :: 0 <= i < j < |Sparse(a)| ==> Sparse(a)[i].level < Sparse(a)[j].level
  {
    if a != [] {
      var most, last := a[..|a| - 1], a[|a| - 1];
      assert a == most + [last] && last in a;
      assert forall p :: p in most ==> p in a;
      SparseIncreases(most);
      SparseMore(most, last);
      forall i | 0 <= i < |Sparse(most)| ensures Sparse(most)[i].level <= |most| {
        SparseExactly(most, Sparse(most)[i]);
      }
    }
  }

  /** The slot that controls the point: the first commanded one (clause 19.2 of ANSI/ASHRAE Standard 135). */
  predicate Winning(a: seq<Priority>, level: int) {
    && 1 <= level <= |a| && a[level - 1].Commanded?
    && forall i :: 0 <= i < level - 1 ==> !a[i].Commanded?
  }

  lemma FirstIsWinning(a: seq<Priority>)
    requires WellTyped(a)
    ensures Sparse(a) != [] ==> Winning(a, Sparse(a)[0].level)
    ensures Sparse(a) == [] ==> forall p :: p in a ==> !p.Commanded?
  {
    SparseIncreases(a);
    forall i | 0 <= i < |a| && a[i].Commanded?
      ensures Sparse(a) != [] && Sparse(a)[0].level <= i + 1
    {
      var o := Override(i + 1, a[i].typeName, a[i].value);
      SparseExactly(a, o);
      assert o in Sparse(a);
    }
    if Sparse(a) != [] {
      SparseExactly(a, Sparse(a)[0]);
    }
  }

  /** A level controls the point exactly when the first reported override is on it; without overrides nothing is
      commanded. */
  lemma WinningIff(a: seq<Priority>, level: int)
    requires WellTyped(a)
    ensures Winning(a, level) <==> Sparse(a) != [] && Sparse(a)[0].level == level
    ensures Sparse(a) == [] <==> forall i :: 0 <= i < |a| ==> !a[i].Commanded?
  {
    FirstIsWinning(a);
    if Sparse(a) != [] {
      var first := Sparse(a)[0].level;
      assert a[first - 1].Commanded?;
    }
  }

  /** Writes overrides back into an array of relinquished slots. */
  function Refill(n: nat, overrides: seq<Override>): (a: seq<Priority>)
    ensures |a| == n
  {
    if overrides == [] then seq(n, _ => Relinquished)
    else
      var before, o := Refill(n, overrides[..|overrides| - 1]), overrides[|overrides| - 1];
      if 1 <= o.level <= n then before[o.level - 1 := Commanded(o.typeName, o.value)] else before
  }

  lemma {:induction false} RefillMore(n: nat, overrides: seq<Override>)
    requires forall o :: o in overrides ==> o.level <= n
    ensures Refill(n + 1, overrides) == Refill(n, overrides) + [Relinquished]
  {
    if overrides != [] {
      assert overrides[|overrides| - 1] in overrides;
      RefillMore(n, overrides[..|overrides| - 1]);
    }
  }

  lemma RefillAppend(n: nat, overrides: seq<Override>, o: Override)
    requires 1 <= o.level <= n
    ensures Refill(n, overrides + [o]) == Refill(n, overrides)[o.level - 1 := Commanded(o.typeName, o.value)]
  {
    assert (overrides + [o])[..|overrides|] == overrides;
  }

  /** The array with slots that could not be read counted as relinquished. */
  function Legible(a: seq<Priority>): seq<Priority> {
    seq(|a|, i requires 0 <= i < |a| => if a[i].Unreadable? then Relinquished else a[i])
  }

  lemma SparseWithin(a: seq<Priority>)
    requires WellTyped(a)
    ensures forall o :: o in Sparse(a) ==> o.level <= |a|
  {
    forall o | o in Sparse(a) ensures o.level <= |a| {
      SparseExactly(a, o);
    }
  }

  lemma LegibleMore(a: seq<Priority>, p: Priority)
    ensures Legible(a + [p]) == Legible(a) + [if p.Unreadable? then Relinquished else p]
  {}

  lemma RefillCommanded(overrides: seq<Override>, filled: seq<Priority>, p: Priority)
    requires Refill(|filled| + 1, overrides) == filled + [Relinquished] && p.Commanded?
    ensures Refill(|filled| + 1, overrides + [Override(|filled| + 1, p.typeName, p.value)]) == filled + [p]
  {
    RefillAppend(|filled| + 1, overrides, Override(|filled| + 1, p.typeName, p.value));
    assert (filled + [Relinquished])[|filled| := p] == filled + [p];
  }

  lemma RefillStep(overrides: seq<Override>, filled: seq<Priority>, p: Priority)
    requires Refill(|filled|, overrides) == filled && forall o :: o in overrides ==> o.level <= |filled|
    ensures var n := |filled|;
            var more := overrides + if p.Commanded? then [Override(n + 1, p.typeName, p.value)] else [];
            Refill(n + 1, more) == filled + [if p.Commanded? then p else Relinquished]
  {
    RefillMore(|filled|, overrides);
    if p.Commanded? {
      RefillCommanded(overrides, filled, p);
    } else {
      assert overrides + [] == overrides;
    }
  }

  /** The report loses nothing: refilling rebuilds the array, but for slots that could not be read. */
  lemma {:induction false} RefillRebuilds(a: seq<Priority>)
    requires WellTyped(a)
    ensures Refill(|a|, Sparse(a)) == Legible(a)
  {
    if a != [] {
      var most, last := a[..|a| - 1], a[|a| - 1];
      assert a == most + [last] && last in a;
      assert forall p :: p in most ==> p in a;
      RefillRebuilds(most);
      SparseWithin(most);
      RefillStep(Sparse(most), Legible(most), last);
      SparseMore(most, last);
      LegibleMore(most, last);
    }
  }

  /** The row that the single-point read lists for a slot. */
  datatype Row = Row(level: int, typeName: string, value: Option<Encoded>)

  function Rows(a: seq<Priority>): seq<Row> {
    seq(|a|, i requires 0 <= i < |a| =>
      match a[i]
      case Commanded(t, v) => Row(i + 1, t, Some(v))
      case _ => Row(i + 1, "null", None))
  }

  /** The single-point read lists every slot at its level, those without a command as "null" without a value. */
  lemma RowsSay(a: seq<Priority>, i: nat)
    requires i < |a|
    ensures |Rows(a)| == |a|
    ensures Rows(a)[i] == if a[i].Commanded? then Row(i + 1, a[i].typeName, Some(a[i].value))
                          else Row(i + 1, "null", None)
  {}

  /** The supervisory report agrees with the single-point read of an array that can be read: same levels,
      types and values. */
  lemma AgreesWithRows(a: seq<Priority>, o: Override)
    requires WellTyped(a) && forall p :: p in a ==> !p.Unreadable?
    ensures o in Sparse(a) <==> Row(o.level, o.typeName, Some(o.value)) in Rows(a)
  {
    SparseExactly(a, o);
    var rows := Rows(a);
    if o in Sparse(a) {
      assert rows[o.level - 1] == Row(o.level, o.typeName, Some(o.value));
    }
    if Row(o.level, o.typeName, Some(o.value)) in rows {
      var i :| 0 <= i < |rows| && rows[i] == Row(o.level, o.typeName, Some(o.value));
      assert a[i].Commanded?;
    }
  }

  // ---------- from the answers to the dense array ----------

  lemma {:induction false} SlotsForNone(entries: seq<Entry>, id: string)
    requires forall i :: 0 <= i < |entries| ==> !AnswersFor(entries[i], id)
    ensures SlotsFor(entries, id) == []
  {
    if entries != [] {
      SlotsForNone(entries[..|entries| - 1], id);
    }
  }

  lemma {:induction false} SlotsForOne(entries: seq<Entry>, id: string, p: nat)
    requires p < |entries| && AnswersFor(entries[p], id)
    requires forall i :: 0 <= i < |entries| && i != p ==> !AnswersFor(entries[i], id)
    ensures SlotsFor(entries, id) == SlotsIn(entries[p])
  {
    var most := entries[..|entries| - 1];
    if p == |entries| - 1 {
      SlotsForNone(most, id);
    } else {
      SlotsForOne(most, id, p);
    }
  }

  // ---------- from both reads to the report ----------

  const ARRAY := "priority-array"

  /** The check asks again about the objects that discovery flagged. */
  function ArrayRequests(found: seq<Found>): seq<Request> {
    if found == [] then []
    else
      var last := found[|found| - 1];
      ArrayRequests(found[..|found| - 1]) + if last.commandable then [Request(last.id, ARRAY)] else []
  }

  lemma {:induction false} ArrayRequestsAreFlagged(found: seq<Found>, r: Request)
    requires r in ArrayRequests(found)
    ensures exists f :: f in found && f.commandable && r == Request(f.id, ARRAY)
  {
    var last := found[|found| - 1];
    if last.commandable && r == Request(last.id, ARRAY) {
      assert last in found;
    } else {
      ArrayRequestsAreFlagged(found[..|found| - 1], r);
    }
  }

  lemma {:induction false} FlaggedIsRequested(found: seq<Found>, i: nat) returns (p: nat)
    requires i < |found| && found[i].commandable
    ensures p < |ArrayRequests(found)| && ArrayRequests(found)[p] == Request(found[i].id, ARRAY)
  {
    if i == |found| - 1 {
      p := |ArrayRequests(found)| - 1;
    } else {
      p := FlaggedIsRequested(found[..|found| - 1], i);
    }
  }

  predicate DistinctFound(found: seq<Found>) {
    forall i, j :: 0 <= i < j < |found| ==> found[i].id != found[j].id
  }

  lemma {:induction false} ArrayRequestsAreDistinct(found: seq<Found>)
    requires DistinctFound(found)
    ensures DistinctObjects(ArrayRequests(found))
  {
    if found != [] {
      var most, last := found[..|found| - 1], found[|found| - 1];
      ArrayRequestsAreDistinct(most);
      forall r | r in ArrayRequests(most) ensures r.oid != last.id {
        ArrayRequestsAreFlagged(most, r);
      }
    }
  }

  /** A second read of the discovered objects, about different objects that the device shows in its own way. */
  ghost predicate ReadsAgain(s: Session, d: Device, found: seq<Found>) {
    && s.Works() && s.answer == AnswerOf(d) && DistinctFound(found)
    && forall f :: f in found ==> IsSeparator(f.id) && Normalize(d.show(f.id)) == f.id
  }

  lemma ReadsAgainReads(s: Session, d: Device, found: seq<Found>)
    requires ReadsAgain(s, d, found)
    ensures Reads(s, d, ArrayRequests(found))
  {
    ArrayRequestsAreDistinct(found);
    forall r | r in ArrayRequests(found) ensures IsSeparator(r.oid) && Normalize(d.show(r.oid)) == r.oid {
      ArrayRequestsAreFlagged(found, r);
    }
  }

  /** The slots of a flagged object are those in its one answer, or none when its request did not come through. */
  lemma ConsultedFromDevice(s: Session, d: Device, found: seq<Found>, i: nat)
    requires ReadsAgain(s, d, found) && i < |found| && found[i].commandable
    ensures var requests, id := ArrayRequests(found), found[i].id;
            Consulted(found[i], s.ReadAll(requests)) ==
            if GotThrough(s, requests, id) then Sort(WholeSlots(Encode(d.read(id, ARRAY)))) else []
  {
    var requests := ArrayRequests(found);
    var entries := s.ReadAll(requests);
    var p := FlaggedIsRequested(found, i);
    ReadsAgainReads(s, d, found);
    AnswerFound(s, d, requests, p);
    GotThroughAt(s, d, requests, p);
    if FateOf(s, requests, p).Through? {
      SlotsForOne(entries, found[i].id, Place(s, requests, p));
    } else {
      SlotsForNone(entries, found[i].id);
    }
  }

  lemma ArrayOverrides(a: seq<Priority>)
    ensures OverridesIn(Sort(WholeSlots(Encode(Is(Slots(EncodeArray(a))))))) == Sparse(a)
    ensures OverridesIn([]) == []
  {
    SortKeepsOrder(Numbered(EncodeArray(a)));
  }

  /** The device's array reaches the report, whatever the chunk size and whatever became of other calls, when
      its own request comes through; otherwise nothing is reported for it. */
  lemma DeviceArrayReported(s: Session, d: Device, found: seq<Found>, i: nat, a: seq<Priority>)
    requires ReadsAgain(s, d, found) && i < |found| && found[i].commandable
    requires d.read(found[i].id, ARRAY) == Is(Slots(EncodeArray(a)))
    ensures OverridesIn(Consulted(found[i], s.ReadAll(ArrayRequests(found)))) ==
            if GotThrough(s, ArrayRequests(found), found[i].id) then Sparse(a) else []
  {
    ConsultedFromDevice(s, d, found, i);
    ArrayOverrides(a);
  }

  /** What it takes to be counted as having a priority array: an answer that is not an empty list. */
  ghost predicate Counted(s: Session, d: Device, found: seq<Found>, f: Found)
    requires s.size >= 1
  {
    f.commandable && GotThrough(s, ArrayRequests(found), f.id) && d.read(f.id, ARRAY) != Is(Slots([]))
  }

  lemma FaultIsNoOverride(text: string)
    ensures OverridesIn(Sort(WholeSlots(Word(FAULT_PREFIX + text)))) == []
  {
    var slot: Slot := (0, Word(FAULT_PREFIX + text));
    assert FAULT_PREFIX + text == "Error:" + (" " + text);
    assert [slot][..0] == [] && Sort([slot]) == [slot];
    assert OverridesIn([slot]) == OverrideIn(slot) == [];
  }

  lemma CountedIff(s: Session, d: Device, found: seq<Found>, i: nat)
    requires ReadsAgain(s, d, found) && i < |found|
    ensures Consulted(found[i], s.ReadAll(ArrayRequests(found))) != [] <==> Counted(s, d, found, found[i])
    ensures Counted(s, d, found, found[i]) && d.read(found[i].id, ARRAY).Fault? ==>
              OverridesIn(Consulted(found[i], s.ReadAll(ArrayRequests(found)))) == []
  {
    var said := d.read(found[i].id, ARRAY);
    if found[i].commandable {
      ConsultedFromDevice(s, d, found, i);
      SortSorts(WholeSlots(Encode(said)));
      if said.Fault? {
        FaultIsNoOverride(said.text);
      }
    }
  }

  /** Object by object, whether it is counted. */
  function Marks(found: seq<Found>, entries: seq<Entry>): (marks: seq<bool>)
    ensures |marks| == |found|
  {
    if found == [] then []
    else Marks(found[..|found| - 1], entries) + [Consulted(found[|found| - 1], entries) != []]
  }

  lemma {:induction false} MarkAt(found: seq<Found>, entries: seq<Entry>, i: nat)
    requires i < |found|
    ensures Marks(found, entries)[i] <==> Consulted(found[i], entries) != []
  {
    if i < |found| - 1 {
      MarkAt(found[..|found| - 1], entries, i);
    }
  }

  lemma {:induction false} CountMarks(found: seq<Found>, entries: seq<Entry>)
    ensures CountWith(found, entries) == |Positions(Marks(found, entries))|
  {
    if found != [] {
      var most, last := found[..|found| - 1], found[|found| - 1];
      CountMarks(most, entries);
      PositionsMore(Marks(most, entries), Consulted(last, entries) != []);
    }
  }

  /** The numbers of the objects that are counted. */
  ghost function CountedNumbers(s: Session, d: Device, found: seq<Found>): set<int>
    requires s.size >= 1
  {
    set i | 0 <= i < |found| && Counted(s, d, found, found[i])
  }

  lemma TruesAreCounted(s: Session, d: Device, found: seq<Found>, marks: seq<bool>)
    requires s.size >= 1 && |marks| == |found|
    requires forall i :: 0 <= i < |found| ==> (marks[i] <==> Counted(s, d, found, found[i]))
    ensures Positions(marks) == CountedNumbers(s, d, found)
  {}

  /** The number of points with a priority array is the number of objects that are counted. */
  lemma CountExactly(s: Session, d: Device, found: seq<Found>)
    requires ReadsAgain(s, d, found)
    ensures CountWith(found, s.ReadAll(ArrayRequests(found))) == |CountedNumbers(s, d, found)|
  {
    var entries := s.ReadAll(ArrayRequests(found));
    var marks := Marks(found, entries);
    CountMarks(found, entries);
    forall i | 0 <= i < |found| ensures marks[i] <==> Counted(s, d, found, found[i]) {
      MarkAt(found, entries, i);
      CountedIff(s, d, found, i);
    }
    TruesAreCounted(s, d, found, marks);
  }

  /** What being counted means for the devices, over both reads: the type is a commandable one, discovery's
      request came through with a value or a property error, and the check's own request came through with
      anything but an empty list. A property error in the second read is counted, too, although it reports no
      override. */
  lemma CountedOverBothReads(objects: seq<Oid>, found: seq<Found>, names: seq<Entry>, show: Encoded -> string,
                             first: Session, before: Device, again: Session, now: Device, i: nat)
    requires DistinctOids(objects) && (forall o :: o in objects ==> TypeName(o.kind)) && i < |found|
    requires first.Works() && first.answer == AnswerOf(before)
    requires ShowsBack(before, Requests(objects, MayBeCommandable, ARRAY))
    requires AllJoined(objects, found, names, first.ReadAll(Requests(objects, MayBeCommandable, ARRAY)), show)
    requires again.Works() && again.answer == AnswerOf(now)
    requires forall f :: f in found ==> Normalize(now.show(f.id)) == f.id
    ensures ReadsAgain(again, now, found)
    ensures var id := found[i].id;
            Counted(again, now, found, found[i]) <==>
            && MayBeCommandable(objects[i].kind)
            && GotThrough(first, Requests(objects, MayBeCommandable, ARRAY), id)
            && (HasArray(before.read(id, ARRAY)) || before.read(id, ARRAY).Fault?)
            && GotThrough(again, ArrayRequests(found), id) && now.read(id, ARRAY) != Is(Slots([]))
    ensures Counted(again, now, found, found[i]) && now.read(found[i].id, ARRAY).Fault? ==>
              OverridesIn(Consulted(found[i], again.ReadAll(ArrayRequests(found)))) == []
  {
    FoundAreDistinct(objects, found, names, first.ReadAll(Requests(objects, MayBeCommandable, ARRAY)), show);
    FlagsFromDevice(first, before, objects, names, show, i, found[i]);
    CountedIff(again, now, found, i);
  }

  lemma OnlyCounted(s: Session, f: Found)
    requires s.Works() && s.answer == AnswerOf(ARRAYLESS) && s.line(0).Through?
    requires f.commandable && IsSeparator(f.id) && Normalize(f.id) == f.id
    requires IsKnown(Request(f.id, ARRAY), s.link.vendor)
    ensures var entries := s.ReadAll(ArrayRequests([f]));
            CountWith([f], entries) == 1 && OverridesIn(Consulted(f, entries)) == []
  {
    assert [f][..0] == [];
    assert ArrayRequests([f]) == [Request(f.id, ARRAY)];
    SingleComes(s, Request(f.id, ARRAY));
    CountedIff(s, ARRAYLESS, [f], 0);
    assert [f][0] == f;
  }

  /** A device without any priority array has its only object counted as having one, although every call came
      through and no override is reported. */
  lemma ErrorIsCounted(vendor: Vendor, o: Oid, show: Encoded -> string) returns (f: Found)
    requires MayBeCommandable(o.kind) && TypeName(o.kind) && IsKnown(Request(Canonical(o), ARRAY), vendor)
    ensures var first := GoodLine(vendor, AnswerOf(ARRAYLESS), DISCOVERY_CHUNK);
            IsJoinOf(o, f, [], first.ReadAll(Requests([o], MayBeCommandable, ARRAY)), show)
    ensures var entries := GoodLine(vendor, AnswerOf(ARRAYLESS), CHUNK_SIZE).ReadAll(ArrayRequests([f]));
            CountWith([f], entries) == 1 && OverridesIn(Consulted(f, entries)) == []
  {
    f := ErrorLooksCommandable(vendor, o, show);
    NormalizesCanonical(o);
    assert f.id == Canonical(o) && f.id[|o.kind|] == ',';
    GoodLineWorks(vendor, AnswerOf(ARRAYLESS), CHUNK_SIZE);
    OnlyCounted(GoodLine(vendor, AnswerOf(ARRAYLESS), CHUNK_SIZE), f);
  }

  lemma FoundAreDistinct(objects: seq<Oid>, found: seq<Found>, names: seq<Entry>, arrays: seq<Entry>,
                         show: Encoded -> string)
    requires DistinctOids(objects) && forall o :: o in objects ==> TypeName(o.kind)
    requires AllJoined(objects, found, names, arrays, show)
    ensures DistinctFound(found) && forall f :: f in found ==> IsSeparator(f.id)
  {
    forall i | 0 <= i < |found| ensures IsSeparator(found[i].id) {
      assert found[i].id == Canonical(objects[i]) && Canonical(objects[i])[|objects[i].kind|] == ',';
    }
    forall i, j | 0 <= i < j < |found| ensures found[i].id != found[j].id {
      CanonicalSeparates(objects[i], objects[j]);
    }
  }
}
