/** Point discovery: joining the answers about names and priority arrays back to a device's object list. */
module Discovery {

  import opened Wrappers
  import opened Identifiers
  import opened Points
  import opened Rpm
  import opened Reading
  import opened Sessions

  const DISCOVERY_CHUNK := 15
  const MISSING_NAME := "ERROR - Missing Data"

  const COMMANDABLE_TYPES := {
    "analog-output", "analog-value", "binary-output", "binary-value", "multi-state-output",
    "multi-state-value", "integer-value", "large-analog-value", "positive-integer-value"}

  predicate MayBeCommandable(kind: string) {
    kind in COMMANDABLE_TYPES
  }

  datatype Found = Found(id: string, name: string, commandable: bool)

  /** One request for each object that `wanted` selects, in order. */
  function Requests(objects: seq<Oid>, wanted: string -> bool, property: string): (r: seq<Request>)
    ensures |r| <= |objects|
  {
    if objects == [] then []
    else
      var last := objects[|objects| - 1];
      Requests(objects[..|objects| - 1], wanted, property)
      + if wanted(last.kind) then [Request(Canonical(last), property)] else []
  }

  /** Entry `i` answers for the object with this canonical identifier. */
  predicate AnswersFor(e: Entry, id: string) {
    e.Answer? && Normalize(e.shown) == id
  }

  predicate LastFor(entries: seq<Entry>, id: string, i: nat) {
    && i < |entries| && AnswersFor(entries[i], id)
    && forall j :: i < j < |entries| ==> !AnswersFor(entries[j], id)
  }

  /** Where the last answer for an object is, if there is one. */
  function LastAnswer(entries: seq<Entry>, id: string): (r: Option<nat>)
    ensures r.Some? ==> LastFor(entries, id, r.value)
    ensures r.None? ==> forall i :: 0 <= i < |entries| ==> !AnswersFor(entries[i], id)
  {
    if entries == [] then None
    else
      var n := |entries| - 1;
      if AnswersFor(entries[n], id) then Some(n)
      else
        assert forall i :: 0 <= i < n ==> entries[..n][i] == entries[i];
        LastAnswer(entries[..n], id)
  }

  ghost predicate HasValue(entries: seq<Entry>, id: string) {
    exists e :: e in entries && AnswersFor(e, id) && e.value != Nothing
  }

  /** A found object is named by the last answer for it, or marked as missing, and is called commandable
      when some answer about its priority array carries a value. */
  ghost predicate IsJoinOf(o: Oid, f: Found, names: seq<Entry>, arrays: seq<Entry>, show: Encoded -> string) {
    && f.id == Canonical(o)
    && (forall i: nat :: LastFor(names, f.id, i) ==> f.name == show(names[i].value))
    && ((forall e :: e in names ==> !AnswersFor(e, f.id)) ==> f.name == MISSING_NAME)
    && (f.commandable <==> HasValue(arrays, f.id))
  }

  /** The dictionary holds, for each identifier, the value of its last answer. */
  ghost predicate Remembers(names: map<string, Encoded>, entries: seq<Entry>) {
    && (forall id :: id in names <==> LastAnswer(entries, id).Some?)
    && (forall id :: id in names ==> names[id] == entries[LastAnswer(entries, id).value].value)
  }

  lemma RemembersMore(names: map<string, Encoded>, entries: seq<Entry>, e: Entry)
    requires Remembers(names, entries)
    ensures Remembers(if e.Answer? then names[Normalize(e.shown) := e.value] else names, entries + [e])
  {
    var more := entries + [e];
    assert more[..|more| - 1] == entries;
    assert more[|more| - 1] == e;
    forall id ensures LastAnswer(more, id) == if AnswersFor(e, id) then Some(|entries|) else LastAnswer(entries, id) {
    }
  }

  method NameMap(entries: seq<Entry>) returns (names: map<string, Encoded>)
    ensures Remembers(names, entries)
  {
    names := map[];
    for k := 0 to |entries|
      invariant Remembers(names, entries[..k])
    {
      assert entries[..k + 1] == entries[..k] + [entries[k]];
      RemembersMore(names, entries[..k], entries[k]);
      if entries[k].Answer? {
        names := names[Normalize(entries[k].shown) := entries[k].value];
      }
    }
    assert entries[..|entries|] == entries;
  }

  method CommandableIds(entries: seq<Entry>) returns (ids: set<string>)
    ensures forall id :: id in ids <==> HasValue(entries, id)
  {
    ids := {};
    for k := 0 to |entries|
      invariant forall id :: id in ids <==> HasValue(entries[..k], id)
    {
      var e := entries[k];
      assert entries[..k + 1] == entries[..k] + [e];
      if e.Answer? && e.value != Nothing {
        ids := ids + {Normalize(e.shown)};
      }
      forall id ensures id in ids <==> HasValue(entries[..k + 1], id) {
        assert forall f :: f in entries[..k + 1] <==> f in entries[..k] || f == e;
      }
    }
    assert entries[..|entries|] == entries;
  }

  ghost predicate AllJoined(objects: seq<Oid>, found: seq<Found>, names: seq<Entry>, arrays: seq<Entry>,
                            show: Encoded -> string)
  {
    && |found| == |objects|
    && forall i :: 0 <= i < |objects| ==> IsJoinOf(objects[i], found[i], names, arrays, show)
  }

  lemma AllJoinedMore(objects: seq<Oid>, found: seq<Found>, o: Oid, f: Found, names: seq<Entry>,
                      arrays: seq<Entry>, show: Encoded -> string)
    requires AllJoined(objects, found, names, arrays, show) && IsJoinOf(o, f, names, arrays, show)
    ensures AllJoined(objects + [o], found + [f], names, arrays, show)
  {}

  method Join(objects: seq<Oid>, names: seq<Entry>, arrays: seq<Entry>, show: Encoded -> string)
    returns (found: seq<Found>)
    requires forall o :: o in objects ==> TypeName(o.kind)
    ensures AllJoined(objects, found, names, arrays, show)
  {
    var nameOf := NameMap(names);
    var commandable := CommandableIds(arrays);
    found := [];
    for i := 0 to |objects|
      invariant AllJoined(objects[..i], found, names, arrays, show)
    {
      var f := JoinOne(objects[i], names, nameOf, arrays, commandable, show);
      AllJoinedMore(objects[..i], found, objects[i], f, names, arrays, show);
      assert objects[..i + 1] == objects[..i] + [objects[i]];
      found := found + [f];
    }
    assert objects[..|objects|] == objects;
  }

  method JoinOne(o: Oid, ghost names: seq<Entry>, nameOf: map<string, Encoded>, ghost arrays: seq<Entry>,
                 commandable: set<string>, show: Encoded -> string) returns (f: Found)
    requires TypeName(o.kind) && Remembers(nameOf, names)
    requires forall id :: id in commandable <==> HasValue(arrays, id)
    ensures IsJoinOf(o, f, names, arrays, show)
  {
    NormalizesCanonical(o);
    var id := Normalize(Canonical(o));
    f := Found(id, if id in nameOf then show(nameOf[id]) else MISSING_NAME, id in commandable);
    IsJoined(o, f, names, nameOf, arrays, show);
  }

  lemma IsJoined(o: Oid, f: Found, names: seq<Entry>, nameOf: map<string, Encoded>, arrays: seq<Entry>,
                 show: Encoded -> string)
    requires Remembers(nameOf, names)
    requires f == Found(Canonical(o), if Canonical(o) in nameOf then show(nameOf[Canonical(o)]) else MISSING_NAME,
                        HasValue(arrays, Canonical(o)))
    ensures IsJoinOf(o, f, names, arrays, show)
  {
    var id := Canonical(o);
    var last := LastAnswer(names, id);
    if last.Some? {
      assert names[last.value] in names;
      assert forall i: nat :: LastFor(names, id, i) ==> i == last.value;
    }
  }

  /** The whole of discovery after the object list is known: both properties are read in chunks. */
  method Discover(objects: seq<Oid>, hasClass: string -> bool, nameLink: Link, arrayLink: Link,
                  show: Encoded -> string) returns (found: seq<Found>)
    requires forall o :: o in objects ==> TypeName(o.kind)
    ensures var names := Combined(Chunks(Requests(objects, hasClass, "object-name"), DISCOVERY_CHUNK), nameLink, 0);
            var arrays := Combined(Chunks(Requests(objects, MayBeCommandable, "priority-array"),
                                          DISCOVERY_CHUNK), arrayLink, 0);
            AllJoined(objects, found, names, arrays, show)
  {
    var names := ReadChunked(Requests(objects, hasClass, "object-name"), nameLink, DISCOVERY_CHUNK);
    var arrays := ReadChunked(Requests(objects, MayBeCommandable, "priority-array"), arrayLink,
                              DISCOVERY_CHUNK);
    found := Join(objects, names, arrays, show);
  }

  /** No call of discovery carries more than 15 requests, and only the last may carry fewer. */
  lemma DiscoveryCallSizes(requests: seq<Request>, k: nat)
    requires k < |Chunks(requests, DISCOVERY_CHUNK)|
    ensures 1 <= |Chunks(requests, DISCOVERY_CHUNK)[k]| <= 15
    ensures k < |Chunks(requests, DISCOVERY_CHUNK)| - 1 ==> |Chunks(requests, DISCOVERY_CHUNK)[k]| == 15
  {
    ChunksPartition(requests, DISCOVERY_CHUNK);
  }

  lemma NormalizesCanonical(o: Oid)
    requires TypeName(o.kind)
    ensures Normalize(Canonical(o)) == Canonical(o)
  {
    assert Plain(o, 0, 0, 0, 0) == Canonical(o);
    NormalizesPlain(o, 0, 0, 0, 0);
  }

  // ---------- what a device's answers make of it ----------

  /** A device that answers each request once, showing identifiers in its own way. */
  datatype Device = Device(read: (string, string) -> Said, show: string -> string)

  function AnswerOf(d: Device): Group -> Raw {
    (g: Group) => Raw(d.show(g.oid), None, d.read(g.oid, if g.properties == [] then "" else g.properties[0]))
  }

  /** The device shows every requested identifier in some form that normalizes back to it. */
  ghost predicate ShowsBack(d: Device, requests: seq<Request>) {
    forall r :: r in requests ==> Normalize(d.show(r.oid)) == r.oid
  }

  predicate DistinctObjects(requests: seq<Request>) {
    forall i, j :: 0 <= i < j < |requests| ==> requests[i].oid != requests[j].oid
  }

  /** A device read in chunks, about different objects that it shows in its own way. */
  ghost predicate Reads(s: Session, d: Device, requests: seq<Request>) {
    && s.Works() && s.answer == AnswerOf(d) && Separated(requests)
    && ShowsBack(d, requests) && DistinctObjects(requests)
  }

  /** Every answer is about the request that it belongs to. */
  lemma AnswersBelong(s: Session, d: Device, requests: seq<Request>, i: nat, id: string) returns (p: nat)
    requires Reads(s, d, requests) && i < |s.ReadAll(requests)| && AnswersFor(s.ReadAll(requests)[i], id)
    ensures p < |requests| && requests[p].oid == id
    ensures FateOf(s, requests, p).Through? && Place(s, requests, p) == i
  {
    SessionCarries(s, requests);
    p :| p < |requests| && FateOf(s, requests, p).Through? && Place(s, requests, p) == i;
    assert requests[p] in requests;
  }

  /** With distinct objects, exactly one entry counts for a request whose call came through, wherever refused
      calls moved it, and none when the call was refused or broke off. */
  lemma AnswerFound(s: Session, d: Device, requests: seq<Request>, p: nat)
    requires Reads(s, d, requests) && p < |requests|
    ensures var entries, r, q := s.ReadAll(requests), requests[p], Place(s, requests, p);
            if FateOf(s, requests, p).Through?
            then LastFor(entries, r.oid, q) && entries[q].value == Encode(d.read(r.oid, r.property))
                 && entries[q].index == None
                 && (forall i :: 0 <= i < |entries| && i != q ==> !AnswersFor(entries[i], r.oid))
            else forall e :: e in entries ==> !AnswersFor(e, r.oid)
  {
    var entries, r := s.ReadAll(requests), requests[p];
    SessionCarries(s, requests);
    assert r in requests;
    forall i | 0 <= i < |entries| && AnswersFor(entries[i], r.oid)
      ensures FateOf(s, requests, p).Through? && i == Place(s, requests, p)
    {
      var q := AnswersBelong(s, d, requests, i, r.oid);
      assert q == p;
    }
  }

  /** What the comments promise of the commandable flag: the device read a priority array successfully. */
  predicate HasArray(said: Said) {
    said.Is? && said.value != Nothing
  }

  lemma ValueFound(s: Session, d: Device, requests: seq<Request>, p: nat)
    requires Reads(s, d, requests) && p < |requests|
    ensures HasValue(s.ReadAll(requests), requests[p].oid) <==>
            var said := d.read(requests[p].oid, requests[p].property);
            FateOf(s, requests, p).Through? && (HasArray(said) || said.Fault?)
  {
    AnswerFound(s, d, requests, p);
    var entries, q := s.ReadAll(requests), Place(s, requests, p);
    if FateOf(s, requests, p).Through? {
      assert entries[q] in entries;
      assert forall e :: e in entries && AnswersFor(e, requests[p].oid) ==> e == entries[q];
    }
  }

  lemma GotThroughAt(s: Session, d: Device, requests: seq<Request>, p: nat)
    requires Reads(s, d, requests) && p < |requests|
    ensures GotThrough(s, requests, requests[p].oid) <==> FateOf(s, requests, p).Through?
  {}

  /** An object that was not asked about is not answered for. */
  lemma NotAsked(s: Session, d: Device, requests: seq<Request>, id: string)
    requires Reads(s, d, requests) && forall r :: r in requests ==> r.oid != id
    ensures forall e :: e in s.ReadAll(requests) ==> !AnswersFor(e, id)
  {
    var entries := s.ReadAll(requests);
    if i :| 0 <= i < |entries| && AnswersFor(entries[i], id) {
      var p := AnswersBelong(s, d, requests, i, id);
      assert false;
    }
  }

  // ---------- from the object list to the answers ----------

  predicate DistinctOids(objects: seq<Oid>) {
    forall i, j :: 0 <= i < j < |objects| ==> objects[i] != objects[j]
  }

  /** Every request is about a wanted object, in a form with a separator. */
  lemma {:induction false} RequestsAreWanted(objects: seq<Oid>, wanted: string -> bool, property: string, r: Request)
    requires r in Requests(objects, wanted, property)
    ensures r.property == property && IsSeparator(r.oid)
    ensures exists o :: o in objects && wanted(o.kind) && r.oid == Canonical(o)
  {
    var last := objects[|objects| - 1];
    if wanted(last.kind) && r == Request(Canonical(last), property) {
      assert Canonical(last)[|last.kind|] == ',';
    } else {
      RequestsAreWanted(objects[..|objects| - 1], wanted, property, r);
    }
  }

  /** Every wanted object has its request. */
  lemma {:induction false} WantedIsRequested(objects: seq<Oid>, wanted: string -> bool, property: string, i: nat)
    returns (p: nat)
    requires i < |objects| && wanted(objects[i].kind)
    ensures p < |Requests(objects, wanted, property)|
    ensures Requests(objects, wanted, property)[p] == Request(Canonical(objects[i]), property)
  {
    if i == |objects| - 1 {
      p := |Requests(objects, wanted, property)| - 1;
    } else {
      p := WantedIsRequested(objects[..|objects| - 1], wanted, property, i);
    }
  }

  lemma {:induction false} RequestsAreDistinct(objects: seq<Oid>, wanted: string -> bool, property: string)
    requires DistinctOids(objects) && forall o :: o in objects ==> TypeName(o.kind)
    ensures DistinctObjects(Requests(objects, wanted, property))
  {
    if objects != [] {
      var most, last := objects[..|objects| - 1], objects[|objects| - 1];
      RequestsAreDistinct(most, wanted, property);
      forall r | r in Requests(most, wanted, property) ensures r.oid != Canonical(last) {
        RequestsAreWanted(most, wanted, property, r);
        var o :| o in most && r.oid == Canonical(o);
        CanonicalSeparates(o, last);
      }
    }
  }

  lemma RequestsAreRead(s: Session, d: Device, objects: seq<Oid>, wanted: string -> bool, property: string)
    requires s.Works() && s.answer == AnswerOf(d) && ShowsBack(d, Requests(objects, wanted, property))
    requires DistinctOids(objects) && forall o :: o in objects ==> TypeName(o.kind)
    ensures Reads(s, d, Requests(objects, wanted, property))
  {
    RequestsAreDistinct(objects, wanted, property);
    forall r | r in Requests(objects, wanted, property) ensures IsSeparator(r.oid) {
      RequestsAreWanted(objects, wanted, property, r);
    }
  }

  /** An object that is not wanted is not answered for. */
  lemma UnwantedNotAsked(s: Session, d: Device, objects: seq<Oid>, wanted: string -> bool, property: string, i: nat)
    requires s.Works() && s.answer == AnswerOf(d) && ShowsBack(d, Requests(objects, wanted, property))
    requires DistinctOids(objects) && forall o :: o in objects ==> TypeName(o.kind)
    requires i < |objects| && !wanted(objects[i].kind)
    ensures forall e :: e in s.ReadAll(Requests(objects, wanted, property)) ==>
              !AnswersFor(e, Canonical(objects[i]))
    ensures !HasValue(s.ReadAll(Requests(objects, wanted, property)), Canonical(objects[i]))
  {
    RequestsAreRead(s, d, objects, wanted, property);
    forall r | r in Requests(objects, wanted, property) ensures r.oid != Canonical(objects[i]) {
      RequestsAreWanted(objects, wanted, property, r);
      var o :| o in objects && wanted(o.kind) && r.oid == Canonical(o);
      CanonicalSeparates(o, objects[i]);
    }
    NotAsked(s, d, Requests(objects, wanted, property), Canonical(objects[i]));
  }

  /** Names end to end: on distinct objects, the name is what the device says, shown as text, for an object
      whose type has a class and whose request came through; otherwise it is the missing marker. */
  lemma NamesFromDevice(s: Session, d: Device, objects: seq<Oid>, hasClass: string -> bool, arrays: seq<Entry>,
                        show: Encoded -> string, i: nat, f: Found)
    requires i < |objects| && DistinctOids(objects) && forall o :: o in objects ==> TypeName(o.kind)
    requires var requests := Requests(objects, hasClass, "object-name");
             && s.Works() && s.answer == AnswerOf(d) && ShowsBack(d, requests)
             && IsJoinOf(objects[i], f, s.ReadAll(requests), arrays, show)
    ensures f.name == if hasClass(objects[i].kind) && GotThrough(s, Requests(objects, hasClass, "object-name"), f.id)
                      then show(Encode(d.read(f.id, "object-name")))
                      else "ERROR - Missing Data"
  {
    RequestsAreRead(s, d, objects, hasClass, "object-name");
    if hasClass(objects[i].kind) {
      var p := WantedIsRequested(objects, hasClass, "object-name", i);
      AnswerFound(s, d, Requests(objects, hasClass, "object-name"), p);
      GotThroughAt(s, d, Requests(objects, hasClass, "object-name"), p);
    } else {
      UnwantedNotAsked(s, d, objects, hasClass, "object-name", i);
    }
  }

  lemma FlagIffValue(s: Session, d: Device, objects: seq<Oid>, i: nat)
    requires i < |objects| && DistinctOids(objects) && forall o :: o in objects ==> TypeName(o.kind)
    requires s.Works() && s.answer == AnswerOf(d) && ShowsBack(d, Requests(objects, MayBeCommandable, "priority-array"))
    ensures var requests, id := Requests(objects, MayBeCommandable, "priority-array"), Canonical(objects[i]);
            HasValue(s.ReadAll(requests), id) <==>
            && MayBeCommandable(objects[i].kind) && GotThrough(s, requests, id)
            && (HasArray(d.read(id, "priority-array")) || d.read(id, "priority-array").Fault?)
  {
    var requests := Requests(objects, MayBeCommandable, "priority-array");
    RequestsAreRead(s, d, objects, MayBeCommandable, "priority-array");
    if MayBeCommandable(objects[i].kind) {
      var p := WantedIsRequested(objects, MayBeCommandable, "priority-array", i);
      ValueFound(s, d, requests, p);
      GotThroughAt(s, d, requests, p);
    } else {
      UnwantedNotAsked(s, d, objects, MayBeCommandable, "priority-array", i);
    }
  }

  lemma FlagOfJoin(o: Oid, f: Found, names: seq<Entry>, arrays: seq<Entry>, show: Encoded -> string)
    requires IsJoinOf(o, f, names, arrays, show)
    ensures f.id == Canonical(o) && f.commandable == HasValue(arrays, Canonical(o))
  {}

  /** Flags end to end: an object is flagged exactly when its type is a commandable one, its request came
      through, and the device answered with a value or with an error of its own, which arrives as a string. So
      the flag keeps its promise for an object whose request came through exactly when the device's answer is
      no error. */
  lemma FlagsFromDevice(s: Session, d: Device, objects: seq<Oid>, names: seq<Entry>, show: Encoded -> string,
                        i: nat, f: Found)
    requires i < |objects| && DistinctOids(objects) && forall o :: o in objects ==> TypeName(o.kind)
    requires var requests := Requests(objects, MayBeCommandable, "priority-array");
             && s.Works() && s.answer == AnswerOf(d) && ShowsBack(d, requests)
             && IsJoinOf(objects[i], f, names, s.ReadAll(requests), show)
    ensures var said := d.read(f.id, "priority-array");
            var asked := MayBeCommandable(objects[i].kind)
                         && GotThrough(s, Requests(objects, MayBeCommandable, "priority-array"), f.id);
            && (f.commandable <==> asked && (HasArray(said) || said.Fault?))
            && (asked ==> ((f.commandable <==> HasArray(said)) <==> !said.Fault?))
  {
    FlagIffValue(s, d, objects, i);
    FlagOfJoin(objects[i], f, names, s.ReadAll(Requests(objects, MayBeCommandable, "priority-array")), show);
  }

  // ---------- which types are asked ----------

  /** The check asks about a hosted kind's name exactly when a row of that kind can be commandable, and besides
      about three further types of values. */
  lemma AskedTypes(t: string)
    ensures MayBeCommandable(t) <==>
            (exists k: Kind :: t == VocabularyName(k) && k in {AnalogOutput, AnalogValue, BinaryOutput, BinaryValue,
                                                              MultiStateOutput, MultiStateValue})
            || t in {"integer-value", "large-analog-value", "positive-integer-value"}
    ensures t in {"analog-input", "binary-input", "multi-state-input", "schedule", "device"} ==> !MayBeCommandable(t)
  {
    assert |"analog-input"| == 12 && "analog-input"[7] == 'i' && "binary-input"[7] == 'i';
    assert |"multi-state-input"| == 17 && "multi-state-input"[12] == 'i';
    assert VocabularyName(AnalogOutput) == "analog-output" && VocabularyName(AnalogValue) == "analog-value";
    assert VocabularyName(BinaryOutput) == "binary-output" && VocabularyName(BinaryValue) == "binary-value";
    assert VocabularyName(MultiStateOutput) == "multi-state-output";
    assert VocabularyName(MultiStateValue) == "multi-state-value";
  }

  /** The flag of an object of a hosted kind: no input and no schedule is ever flagged, and an output or a value
      object is flagged exactly when its request came through with a value or a property error. */
  lemma FlagsByKind(s: Session, d: Device, objects: seq<Oid>, names: seq<Entry>, show: Encoded -> string,
                    i: nat, f: Found, k: Kind)
    requires i < |objects| && DistinctOids(objects) && forall o :: o in objects ==> TypeName(o.kind)
    requires var requests := Requests(objects, MayBeCommandable, "priority-array");
             && s.Works() && s.answer == AnswerOf(d) && ShowsBack(d, requests)
             && IsJoinOf(objects[i], f, names, s.ReadAll(requests), show)
    requires objects[i].kind == VocabularyName(k)
    ensures var said := d.read(f.id, "priority-array");
            f.commandable <==>
            && k in {AnalogOutput, AnalogValue, BinaryOutput, BinaryValue, MultiStateOutput, MultiStateValue}
            && GotThrough(s, Requests(objects, MayBeCommandable, "priority-array"), f.id)
            && (HasArray(said) || said.Fault?)
  {
    assert MayBeCommandable(objects[i].kind) <==>
           k in {AnalogOutput, AnalogValue, BinaryOutput, BinaryValue, MultiStateOutput, MultiStateValue} by {
      HostedKindAsked(k);
    }
    FlagIffValue(s, d, objects, i);
    FlagOfJoin(objects[i], f, names, s.ReadAll(Requests(objects, MayBeCommandable, "priority-array")), show);
  }

  lemma HostedKindAsked(k: Kind)
    ensures MayBeCommandable(VocabularyName(k)) <==>
            k in {AnalogOutput, AnalogValue, BinaryOutput, BinaryValue, MultiStateOutput, MultiStateValue}
  {
    match k {
      case AnalogInput => assert |"analog-input"| == 12 && "analog-input"[7] == 'i';
      case BinaryInput => assert |"binary-input"| == 12 && "binary-input"[7] == 'i';
      case MultiStateInput => assert |"multi-state-input"| == 17 && "multi-state-input"[12] == 'i';
      case Schedule => assert |"schedule"| == 8;
      case _ =>
    }
  }

  /** A device without any priority array. */
  const ARRAYLESS := Device((oid, property) => Fault("property, unknown-property"), oid => oid)

  /** A line on which every call to a device comes through. */
  function GoodLine(vendor: Vendor, answer: Group -> Raw, size: nat): Session {
    Session(Link(vendor, (n, groups: seq<Group>) =>
              Answers(seq(|groups|, i requires 0 <= i < |groups| => answer(groups[i])))),
            answer, n => Through, size)
  }

  lemma GoodLineWorks(vendor: Vendor, answer: Group -> Raw, size: nat)
    requires size >= 1
    ensures GoodLine(vendor, answer, size).Works()
  {}

  lemma OnlyObject(s: Session, o: Oid, show: Encoded -> string, f: Found)
    requires s.Works() && s.answer == AnswerOf(ARRAYLESS) && s.line(0).Through?
    requires MayBeCommandable(o.kind) && TypeName(o.kind)
    requires IsKnown(Request(Canonical(o), "priority-array"), s.link.vendor)
    requires IsJoinOf(o, f, [], s.ReadAll(Requests([o], MayBeCommandable, "priority-array")), show)
    ensures f.commandable
  {
    var r := Request(Canonical(o), "priority-array");
    assert [o][..0] == [];
    assert Requests([o], MayBeCommandable, "priority-array") == [r];
    NormalizesCanonical(o);
    FlagsFromDevice(s, ARRAYLESS, [o], [], show, 0, f);
    assert r.oid[|o.kind|] == ',';
    SingleComes(s, r);
  }

  /** The promise fails: the only object of such a device is flagged, although every call came through and the
      device reported that it has no priority array. */
  lemma ErrorLooksCommandable(vendor: Vendor, o: Oid, show: Encoded -> string) returns (f: Found)
    requires MayBeCommandable(o.kind) && TypeName(o.kind)
    requires IsKnown(Request(Canonical(o), "priority-array"), vendor)
    ensures var s := GoodLine(vendor, AnswerOf(ARRAYLESS), DISCOVERY_CHUNK);
            IsJoinOf(o, f, [], s.ReadAll(Requests([o], MayBeCommandable, "priority-array")), show)
    ensures f.commandable && !HasArray(ARRAYLESS.read(f.id, "priority-array"))
  {
    var s := GoodLine(vendor, AnswerOf(ARRAYLESS), DISCOVERY_CHUNK);
    var arrays := s.ReadAll(Requests([o], MayBeCommandable, "priority-array"));
    f := Found(Canonical(o), MISSING_NAME, HasValue(arrays, Canonical(o)));
    IsJoined(o, f, [], map[], arrays, show);
    GoodLineWorks(vendor, AnswerOf(ARRAYLESS), DISCOVERY_CHUNK);
    OnlyObject(s, o, show, f);
  }
}
