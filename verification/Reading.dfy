/** Reading properties of a remote device: one Read-Property-Multiple call, and long requests in chunks. */
module Reading {

  import opened Wrappers
  import opened Rpm
  import opened Identifiers

  /** A property value in JSON form. */
  datatype Encoded =
    | Nothing
    | Word(s: string)
    | Number(x: real)
    | Fields(fields: seq<(string, Encoded)>)
    | Slots(slots: seq<Encoded>)
    | Other(typeName: string)

  /** What a device says about one property: a value, or an error of its own. */
  datatype Said = Is(value: Encoded) | Fault(text: string)

  datatype Raw = Raw(shown: string, index: Option<int>, said: Said)

  /** A device answers a request, refuses it with a BACnet error, or the call breaks off. */
  datatype Reply = Answers(raws: seq<Raw>) | Refused | Broken

  /** `device(n, groups)` is the reply to call number `n`. */
  datatype Link = Link(vendor: Vendor, device: (nat, seq<Group>) -> Reply)

  /** An entry of a result list: an error, or the value of a property. */
  datatype Entry = Failed | Answer(shown: string, index: Option<int>, value: Encoded)

  datatype Outcome = Returned(entries: seq<Entry>) | Thrown

  const FAULT_PREFIX := "Error: "

  /** The device's own error for a property becomes a string, not an error entry. */
  function Encode(said: Said): Encoded {
    match said
    case Is(value) => value
    case Fault(text) => Word(FAULT_PREFIX + text)
  }

  function ToEntry(raw: Raw): Entry {
    Answer(raw.shown, raw.index, Encode(raw.said))
  }

  /** A value arrives as it is, an error of the device as a text that starts with "Error: ", each under the
      identifier and the index that the device gave. */
  lemma EntrySays(shown: string, index: Option<int>, value: Encoded, text: string)
    ensures ToEntry(Raw(shown, index, Is(value))) == Answer(shown, index, value)
    ensures ToEntry(Raw(shown, index, Fault(text))) == Answer(shown, index, Word("Error: " + text))
  {}

  function ToEntries(raws: seq<Raw>): (entries: seq<Entry>)
    ensures |entries| == |raws|
  {
    seq(|raws|, i requires 0 <= i < |raws| => ToEntry(raws[i]))
  }

  /** An unknown object type, an empty request and a BACnet error give one error entry for everything. */
  function Ask(parsed: Parsed, link: Link, n: nat): Outcome {
    match parsed
    case Raised => Thrown
    case Unrecognized(_) => Returned([Failed])
    case Accepted(groups) =>
      if groups == [] then Returned([Failed])
      else
        match link.device(n, groups)
        case Answers(raws) => Returned(ToEntries(raws))
        case Refused => Returned([Failed])
        case Broken => Thrown
  }

  function CallOutcome(tokens: seq<string>, link: Link, n: nat): Outcome {
    Ask(Check(Parse(tokens), link.vendor), link, n)
  }

  method EncodeAll(raws: seq<Raw>) returns (results: seq<Entry>)
    ensures results == ToEntries(raws)
  {
    results := [];
    for i := 0 to |raws|
      invariant results == ToEntries(raws)[..i]
    {
      results := results + [ToEntry(raws[i])];
    }
  }

  /** The device is asked at all: there is something to ask, and nothing that the tables do not know. */
  ghost predicate IsAsked(tokens: seq<string>, link: Link) {
    tokens != [] && forall g :: g in Parse(tokens) ==> Fine(g, link.vendor)
  }

  /** The call breaks off, or the first thing the tables do not accept is more than a missing class. */
  ghost predicate Throws(tokens: seq<string>, link: Link, n: nat) {
    || (IsAsked(tokens, link) && link.device(n, Parse(tokens)).Broken?)
    || exists i: nat :: FirstFault(Parse(tokens), link.vendor, i)
                        && !link.vendor.verdict(Parse(tokens)[i].oid).NoClass?
  }

  /** A call returns an entry for each answer of the device, or a single error entry however much was asked. */
  ghost predicate Gives(entries: seq<Entry>, tokens: seq<string>, link: Link, n: nat) {
    var reply := link.device(n, Parse(tokens));
    if IsAsked(tokens, link) && reply.Answers?
    then |entries| == |reply.raws| && forall i :: 0 <= i < |reply.raws| ==> entries[i] == ToEntry(reply.raws[i])
    else entries == [Failed]
  }

  lemma CallShape(tokens: seq<string>, link: Link, n: nat)
    ensures CallOutcome(tokens, link, n).Thrown? <==> Throws(tokens, link, n)
    ensures CallOutcome(tokens, link, n).Returned? ==> Gives(CallOutcome(tokens, link, n).entries, tokens, link, n)
  {
    CheckIsFirstFault(Parse(tokens), link.vendor);
  }

  method ReadMultipleProperties(tokens: seq<string>, link: Link, n: nat) returns (outcome: Outcome)
    ensures outcome == CallOutcome(tokens, link, n)
    ensures outcome.Thrown? <==> Throws(tokens, link, n)
    ensures outcome.Returned? ==> Gives(outcome.entries, tokens, link, n)
  {
    CallShape(tokens, link, n);
    var parsed := ParseTokens(tokens, link.vendor);
    match parsed {
      case Raised => return Thrown;
      case Unrecognized(_) => return Returned([Failed]);
      case Accepted(groups) =>
        if groups == [] {
          return Returned([Failed]);
        }
        match link.device(n, groups) {
          case Refused => return Returned([Failed]);
          case Broken => return Thrown;
          case Answers(raws) =>
            var results := EncodeAll(raws);
            return Returned(results);
        }
    }
  }

  // ---------- chunks ----------

  function ErrorEntries(n: nat): (entries: seq<Entry>)
    ensures |entries| == n && forall i :: 0 <= i < n ==> entries[i] == Failed
  {
    seq(n, _ => Failed)
  }

  /** A call that throws counts as one error entry for each of its requests. */
  function ChunkEntries(chunk: seq<Request>, link: Link, n: nat): seq<Entry> {
    match CallOutcome(Arguments(chunk), link, n)
    case Returned(entries) => entries
    case Thrown => ErrorEntries(|chunk|)
  }

  function Combined(chunks: seq<seq<Request>>, link: Link, n: nat): seq<Entry> {
    if chunks == [] then [] else ChunkEntries(chunks[0], link, n) + Combined(chunks[1..], link, n + 1)
  }

  /** Reads the next chunk, turning a call that throws into error entries. */
  method ReadChunk(requests: seq<Request>, from: nat, to: nat, link: Link, ghost size: nat, n: nat)
    returns (entries: seq<Entry>)
    requires from < |requests| && 1 <= size
    requires to == if from + size < |requests| then from + size else |requests|
    ensures Combined(Chunks(requests[from..], size), link, n)
         == entries + Combined(Chunks(requests[to..], size), link, n + 1)
  {
    var chunk := requests[from..to];
    ghost var todo := requests[from..];
    assert todo[..to - from] == chunk && todo[to - from..] == requests[to..];
    NextChunk(todo, to - from, size, link, n);
    var outcome := ReadMultipleProperties(Arguments(chunk), link, n);
    match outcome {
      case Returned(results) => entries := results;
      case Thrown => entries := ErrorEntries(|chunk|);
    }
  }

  /** How many entries a chunk contributes: one for each request when its call throws, one for each answer, or
      one for everything. */
  ghost function CountFor(chunk: seq<Request>, link: Link, n: nat): nat {
    var tokens := Arguments(chunk);
    if CallOutcome(tokens, link, n).Thrown? then |chunk|
    else if IsAsked(tokens, link) && link.device(n, Parse(tokens)).Answers? then |link.device(n, Parse(tokens)).raws|
    else 1
  }

  ghost function TotalFor(chunks: seq<seq<Request>>, link: Link, n: nat): nat {
    if chunks == [] then 0 else CountFor(chunks[0], link, n) + TotalFor(chunks[1..], link, n + 1)
  }

  /** The length of the result list, chunk by chunk, for any device and any requests. */
  lemma {:induction false} CombinedCount(chunks: seq<seq<Request>>, link: Link, n: nat)
    ensures |Combined(chunks, link, n)| == TotalFor(chunks, link, n)
  {
    if chunks != [] {
      CallShape(Arguments(chunks[0]), link, n);
      CombinedCount(chunks[1..], link, n + 1);
    }
  }

  lemma Associates<T>(a: seq<T>, b: seq<T>, c: seq<T>)
    ensures a + (b + c) == a + b + c
  {}

  method ReadChunked(requests: seq<Request>, link: Link, size: nat) returns (combined: seq<Entry>)
    requires size >= 1
    ensures combined == Combined(Chunks(requests, size), link, 0)
    ensures |combined| == TotalFor(Chunks(requests, size), link, 0)
  {
    CombinedCount(Chunks(requests, size), link, 0);
    combined := [];
    var i, n := 0, 0;
    ghost var later := Combined(Chunks(requests, size), link, 0);
    ghost var total := later;
    assert requests[0..] == requests;
    while i < |requests|
      invariant i <= |requests| && later == Combined(Chunks(requests[i..], size), link, n)
      invariant total == combined + later
      decreases |requests| - i
    {
      var end := if i + size < |requests| then i + size else |requests|;
      var entries := ReadChunk(requests, i, end, link, size, n);
      later := Combined(Chunks(requests[end..], size), link, n + 1);
      Associates(combined, entries, later);
      combined := combined + entries;
      i, n := end, n + 1;
    }
    assert later == [];
  }

  lemma NextChunk(todo: seq<Request>, length: nat, size: nat, link: Link, n: nat)
    requires size >= 1 && todo != [] && length == if size < |todo| then size else |todo|
    ensures Combined(Chunks(todo, size), link, n) ==
            ChunkEntries(todo[..length], link, n) + Combined(Chunks(todo[length..], size), link, n + 1)
  {
    if |todo| <= size {
      assert todo[..length] == todo && todo[length..] == [];
      assert Chunks(todo, size)[1..] == [];
    } else {
      assert Chunks(todo, size)[1..] == Chunks(todo[size..], size);
    }
  }

  const CHUNK_SIZE := 25

  lemma ChunkAt(requests: seq<Request>, from: nat, to: nat, size: nat, chunks: seq<seq<Request>>, n: nat)
    requires from < |requests| && 1 <= size && n <= |chunks|
    requires to == if from + size < |requests| then from + size else |requests|
    requires chunks[n..] == Chunks(requests[from..], size)
    ensures n < |chunks| && chunks[n] == requests[from..to]
    ensures chunks[n + 1..] == Chunks(requests[to..], size) && chunks[n..] == [chunks[n]] + chunks[n + 1..]
    ensures chunks[n..][1..] == chunks[n + 1..]
  {
    var todo := requests[from..];
    assert todo[..to - from] == requests[from..to] && todo[to - from..] == requests[to..];
    assert chunks[n..][0] == chunks[n] && chunks[n..][1..] == chunks[n + 1..];
    if |todo| <= size {
      assert requests[to..] == [];
    } else {
      assert Chunks(todo, size)[1..] == Chunks(todo[size..], size);
    }
  }

  /** No call carries more than 25 requests, and only the last may carry fewer. */
  lemma CallSizes(requests: seq<Request>, k: nat)
    requires k < |Chunks(requests, CHUNK_SIZE)|
    ensures 1 <= |Chunks(requests, CHUNK_SIZE)[k]| <= 25
    ensures k < |Chunks(requests, CHUNK_SIZE)| - 1 ==> |Chunks(requests, CHUNK_SIZE)[k]| == 25
  {
    ChunksPartition(requests, CHUNK_SIZE);
  }

  /** Reads the next chunk, or reports that the call throws. */
  method ReadChunkOrFail(requests: seq<Request>, from: nat, to: nat, link: Link, ghost size: nat, n: nat)
    returns (entries: Option<seq<Entry>>)
    requires from < |requests| && 1 <= size
    requires to == if from + size < |requests| then from + size else |requests|
    ensures entries.None? <==> CallOutcome(Arguments(requests[from..to]), link, n).Thrown?
    ensures entries.Some? ==>
              Combined(Chunks(requests[from..], size), link, n)
              == entries.value + Combined(Chunks(requests[to..], size), link, n + 1)
  {
    var chunk := requests[from..to];
    ghost var todo := requests[from..];
    assert todo[..to - from] == chunk && todo[to - from..] == requests[to..];
    NextChunk(todo, to - from, size, link, n);
    var outcome := ReadMultipleProperties(Arguments(chunk), link, n);
    match outcome {
      case Returned(results) => entries := Some(results);
      case Thrown => entries := None;
    }
  }

  /** The variant behind the RPC method gives up when any call throws. */
  method ReadAllOrNothing(requests: seq<Request>, link: Link) returns (result: Option<seq<Entry>>)
    ensures var chunks := Chunks(requests, CHUNK_SIZE);
            && (result.Some? <==> forall k :: 0 <= k < |chunks| ==> !CallOutcome(Arguments(chunks[k]), link, k).Thrown?)
            && (result.Some? ==> result.value == Combined(chunks, link, 0))
  {
    var combined: seq<Entry> := [];
    ghost var chunks := Chunks(requests, CHUNK_SIZE);
    ghost var later := Combined(chunks, link, 0);
    ghost var total := later;
    var i, n := 0, 0;
    assert requests[0..] == requests && chunks[0..] == chunks;
    while i < |requests|
      invariant i <= |requests| && n <= |chunks|
      invariant chunks[n..] == Chunks(requests[i..], CHUNK_SIZE)
      invariant later == Combined(Chunks(requests[i..], CHUNK_SIZE), link, n) && total == combined + later
      invariant forall k :: 0 <= k < n ==> !CallOutcome(Arguments(chunks[k]), link, k).Thrown?
      decreases |requests| - i
    {
      var end := if i + CHUNK_SIZE < |requests| then i + CHUNK_SIZE else |requests|;
      ChunkAt(requests, i, end, CHUNK_SIZE, chunks, n);
      var entries := ReadChunkOrFail(requests, i, end, link, CHUNK_SIZE, n);
      if entries.None? {
        return None;
      }
      later := Combined(Chunks(requests[end..], CHUNK_SIZE), link, n + 1);
      Associates(combined, entries.value, later);
      combined := combined + entries.value;
      i, n := end, n + 1;
    }
    assert later == [] && chunks[n..] == [];
    result := Some(combined);
  }

  // ---------- chunking does not show ----------

  function All(groups: seq<Group>, answer: Group -> seq<Raw>): seq<Raw> {
    if groups == [] then [] else answer(groups[0]) + All(groups[1..], answer)
  }

  /** A device that answers group by group, whatever else is in the call. */
  ghost predicate AnswersEach(link: Link, answer: Group -> seq<Raw>) {
    forall n: nat, groups: seq<Group> :: groups != [] ==> link.device(n, groups) == Answers(All(groups, answer))
  }

  /** Every object identifier reads as one in a token list. */
  predicate Separated(requests: seq<Request>) {
    forall r :: r in requests ==> IsSeparator(r.oid)
  }

  predicate IsKnown(r: Request, vendor: Vendor) {
    vendor.verdict(r.oid).Known? && vendor.isProperty(r.property)
  }

  /** Requests that the vendor tables know, in a form that a token list can carry. */
  predicate Acceptable(requests: seq<Request>, vendor: Vendor) {
    Separated(requests) && forall r :: r in requests ==> IsKnown(r, vendor)
  }

  /** The validator of object identifiers is enough for the token list: requests it lets through parse back,
      one group each in request order. It does not consult the vendor tables. */
  lemma ValidatedParseBack(requests: seq<Request>, types: set<string>)
    requires forall r :: r in requests ==> ParseIdentifier(r.oid, types).Ok?
    ensures Separated(requests) && Parse(Arguments(requests)) == Groups(requests)
  {
    assert forall i :: 0 <= i < |requests| ==> requests[i] in requests;
    RequestsParseIff(requests);
  }

  lemma GroupsFine(requests: seq<Request>, vendor: Vendor)
    ensures (forall g :: g in Groups(requests) ==> Fine(g, vendor)) <==>
            forall r :: r in requests ==> IsKnown(r, vendor)
  {
    var groups := Groups(requests);
    forall i | 0 <= i < |requests|
      ensures groups[i] in groups && requests[i] in requests
      ensures Fine(groups[i], vendor) <==> IsKnown(requests[i], vendor)
    {
      assert groups[i] == Group(requests[i].oid, [requests[i].property]);
      assert groups[i].properties[0] == requests[i].property;
    }
  }

  /** One call asks for exactly one group a request, in request order. */
  lemma OneCall(requests: seq<Request>, link: Link, n: nat)
    requires Separated(requests)
    ensures CallOutcome(Arguments(requests), link, n) == Ask(Check(Groups(requests), link.vendor), link, n)
    ensures Check(Groups(requests), link.vendor).Accepted? <==>
            forall r :: r in requests ==> IsKnown(r, link.vendor)
    ensures Check(Groups(requests), link.vendor).Accepted? ==>
              Check(Groups(requests), link.vendor).groups == Groups(requests)
  {
    assert forall i :: 0 <= i < |requests| ==> requests[i] in requests;
    RequestsParseIff(requests);
    CheckIsFirstFault(Groups(requests), link.vendor);
    GroupsFine(requests, link.vendor);
  }

  lemma {:induction false} AllConcat(a: seq<Group>, b: seq<Group>, answer: Group -> seq<Raw>)
    ensures All(a + b, answer) == All(a, answer) + All(b, answer)
  {
    if a == [] {
      assert a + b == b;
    } else {
      assert (a + b)[1..] == a[1..] + b;
      AllConcat(a[1..], b, answer);
    }
  }

  lemma ChunkOfAnswers(chunk: seq<Request>, link: Link, n: nat, answer: Group -> seq<Raw>)
    requires chunk != [] && AnswersEach(link, answer) && Acceptable(chunk, link.vendor)
    ensures ChunkEntries(chunk, link, n) == ToEntries(All(Groups(chunk), answer))
    ensures CallOutcome(Arguments(chunk), link, n) == Returned(ToEntries(All(Groups(chunk), answer)))
  {
    OneCall(chunk, link, n);
    assert Groups(chunk) != [];
  }

  lemma SplitRequests(requests: seq<Request>, length: nat, vendor: Vendor)
    requires length <= |requests| && Acceptable(requests, vendor)
    ensures Acceptable(requests[..length], vendor) && Acceptable(requests[length..], vendor)
    ensures Groups(requests) == Groups(requests[..length]) + Groups(requests[length..])
  {
    assert forall r :: r in requests[..length] ==> r in requests;
    assert forall r :: r in requests[length..] ==> r in requests;
  }

  lemma ToEntriesConcat(a: seq<Raw>, b: seq<Raw>)
    ensures ToEntries(a + b) == ToEntries(a) + ToEntries(b)
  {}

  lemma {:induction false} CombinedOfAnswers(requests: seq<Request>, link: Link, size: nat, n: nat,
                                             answer: Group -> seq<Raw>)
    requires size >= 1 && AnswersEach(link, answer) && Acceptable(requests, link.vendor)
    ensures Combined(Chunks(requests, size), link, n) == ToEntries(All(Groups(requests), answer))
    decreases |requests|
  {
    if requests != [] {
      var length := if size < |requests| then size else |requests|;
      var chunk, more := requests[..length], requests[length..];
      SplitRequests(requests, length, link.vendor);
      NextChunk(requests, length, size, link, n);
      ChunkOfAnswers(chunk, link, n, answer);
      CombinedOfAnswers(more, link, size, n + 1, answer);
      AllConcat(Groups(chunk), Groups(more), answer);
      ToEntriesConcat(All(Groups(chunk), answer), All(Groups(more), answer));
    }
  }

  /** Chunking refines the single call: with a device that answers group by group, the result is that of
      one unchunked call, whatever the chunk size and however many entries each group yields. */
  lemma ChunkingDoesNotShow(requests: seq<Request>, link: Link, size: nat, answer: Group -> seq<Raw>)
    requires requests != [] && size >= 1
    requires AnswersEach(link, answer) && Acceptable(requests, link.vendor)
    ensures CallOutcome(Arguments(requests), link, 0) == Returned(Combined(Chunks(requests, size), link, 0))
  {
    CombinedOfAnswers(requests, link, size, 0, answer);
    ChunkOfAnswers(requests, link, 0, answer);
  }
}
