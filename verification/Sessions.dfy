/** Reading a device over a line on which calls come through, are refused with a BACnet error, or break off:
    how long the result list is, where each answer ends up, and when entries stay in the place of their
    requests. */
module Sessions {

  import opened Wrappers
  import opened Rpm
  import opened Reading

  datatype Fate = Through | Refusal | Breakdown

  /** A device with one answer for each group; `line(n)` is what becomes of call number `n`. */
  datatype Session = Session(link: Link, answer: Group -> Raw, line: nat -> Fate, size: nat) {
    ghost predicate Works() {
      && size >= 1
      && forall n: nat, groups: seq<Group> :: groups != [] ==> link.device(n, groups) == Response(line(n), groups)
    }

    function Response(fate: Fate, groups: seq<Group>): Reply {
      match fate
      case Through => Answers(seq(|groups|, i requires 0 <= i < |groups| => answer(groups[i])))
      case Refusal => Refused
      case Breakdown => Broken
    }

    function ReadAll(requests: seq<Request>): seq<Entry>
      requires size >= 1
    {
      Combined(Chunks(requests, size), link, 0)
    }
  }

  type Chunk = seq<Request>

  /** What becomes of a call for a chunk: an object type without a class counts like a refusal, other requests
      the vendor tables do not know like a breakdown, whatever the line does. */
  function ChunkFate(s: Session, chunk: Chunk, n: nat): Fate {
    match Check(Groups(chunk), s.link.vendor)
    case Raised => Breakdown
    case Unrecognized(_) => Refusal
    case Accepted(_) => s.line(n)
  }

  /** How many entries a chunk contributes. */
  function Share(s: Session, chunk: Chunk, n: nat): nat {
    if ChunkFate(s, chunk, n).Refusal? then 1 else |chunk|
  }

  /** What becomes of request `p` of a list of chunks, when calls are numbered from `n`. */
  function FateIn(s: Session, chunks: seq<Chunk>, n: nat, p: nat): Fate
    requires p < |Concat(chunks)|
  {
    if p < |chunks[0]| then ChunkFate(s, chunks[0], n)
    else FateIn(s, chunks[1..], n + 1, p - |chunks[0]|)
  }

  /** Where the entry that answers request `p` ends up. */
  function PlaceIn(s: Session, chunks: seq<Chunk>, n: nat, p: nat): nat
    requires p < |Concat(chunks)|
  {
    if p < |chunks[0]| then p
    else Share(s, chunks[0], n) + PlaceIn(s, chunks[1..], n + 1, p - |chunks[0]|)
  }

  function FateOf(s: Session, requests: seq<Request>, p: nat): Fate
    requires s.size >= 1 && p < |requests|
  {
    ChunksPartition(requests, s.size);
    FateIn(s, Chunks(requests, s.size), 0, p)
  }

  function Place(s: Session, requests: seq<Request>, p: nat): nat
    requires s.size >= 1 && p < |requests|
  {
    ChunksPartition(requests, s.size);
    PlaceIn(s, Chunks(requests, s.size), 0, p)
  }

  /** A request about the object came through. */
  ghost predicate GotThrough(s: Session, requests: seq<Request>, oid: string)
    requires s.size >= 1
  {
    exists p: nat :: p < |requests| && requests[p].oid == oid && FateOf(s, requests, p).Through?
  }

  function Single(r: Request): Group {
    Group(r.oid, [r.property])
  }

  /** Chunks that are calls: none is empty, and token lists can carry them. */
  predicate AreCalls(chunks: seq<Chunk>) {
    forall k :: 0 <= k < |chunks| ==> chunks[k] != [] && Separated(chunks[k])
  }

  /** What a chunk contributes: an answer for each request, a single error entry, or an error entry for each
      request. */
  ghost predicate Serves(s: Session, chunk: Chunk, n: nat, entries: seq<Entry>) {
    && |entries| == Share(s, chunk, n)
    && (ChunkFate(s, chunk, n).Through? ==>
          forall i :: 0 <= i < |chunk| ==> entries[i] == ToEntry(s.answer(Single(chunk[i]))))
    && (!ChunkFate(s, chunk, n).Through? ==> forall i :: 0 <= i < |entries| ==> entries[i] == Failed)
  }

  lemma FatedChunk(s: Session, chunk: Chunk, n: nat)
    requires s.Works() && chunk != [] && Separated(chunk)
    ensures Serves(s, chunk, n, ChunkEntries(chunk, s.link, n))
  {
    OneCall(chunk, s.link, n);
    var groups := Groups(chunk);
    assert groups != [];
    assert forall i :: 0 <= i < |chunk| ==> groups[i] == Single(chunk[i]);
    assert s.link.device(n, groups) == s.Response(s.line(n), groups);
  }

  lemma {:induction false} ConcatHolds(chunks: seq<Chunk>, k: nat, r: Request)
    requires k < |chunks| && r in chunks[k]
    ensures r in Concat(chunks)
  {
    if k > 0 {
      ConcatHolds(chunks[1..], k - 1, r);
    }
  }

  lemma SeparatedCalls(s: Session, requests: seq<Request>)
    requires s.size >= 1 && Separated(requests)
    ensures AreCalls(Chunks(requests, s.size)) && Concat(Chunks(requests, s.size)) == requests
  {
    var chunks := Chunks(requests, s.size);
    ChunksPartition(requests, s.size);
    forall k, r | 0 <= k < |chunks| && r in chunks[k] ensures r in requests {
      ConcatHolds(chunks, k, r);
    }
  }

  // ---------- length ----------

  /** The entries that refusals cost: all but one of each refused chunk. */
  function Lost(s: Session, chunks: seq<Chunk>, n: nat): int {
    if chunks == [] then 0 else |chunks[0]| - Share(s, chunks[0], n) + Lost(s, chunks[1..], n + 1)
  }

  lemma {:induction false} CombinedLength(s: Session, chunks: seq<Chunk>, n: nat)
    requires s.Works() && AreCalls(chunks)
    ensures |Combined(chunks, s.link, n)| == |Concat(chunks)| - Lost(s, chunks, n)
  {
    if chunks != [] {
      FatedChunk(s, chunks[0], n);
      CombinedLength(s, chunks[1..], n + 1);
    }
  }

  /** The result list is as long as the request list, less what refusals cost. */
  lemma SessionLength(s: Session, requests: seq<Request>)
    requires s.Works() && Separated(requests)
    ensures |s.ReadAll(requests)| == |requests| - Lost(s, Chunks(requests, s.size), 0)
  {
    SeparatedCalls(s, requests);
    CombinedLength(s, Chunks(requests, s.size), 0);
  }

  /** No refused chunk has two or more requests. */
  predicate NoneLost(s: Session, chunks: seq<Chunk>, n: nat) {
    forall k :: 0 <= k < |chunks| ==> ChunkFate(s, chunks[k], n + k).Refusal? ==> |chunks[k]| <= 1
  }

  lemma NoneLostCons(s: Session, chunks: seq<Chunk>, n: nat)
    requires chunks != []
    ensures NoneLost(s, chunks, n) <==>
            (ChunkFate(s, chunks[0], n).Refusal? ==> |chunks[0]| <= 1) && NoneLost(s, chunks[1..], n + 1)
  {
    var more := chunks[1..];
    if NoneLost(s, chunks, n) {
      assert ChunkFate(s, chunks[0], n + 0).Refusal? ==> |chunks[0]| <= 1;
      forall k | 0 <= k < |more| && ChunkFate(s, more[k], n + 1 + k).Refusal? ensures |more[k]| <= 1 {
        assert more[k] == chunks[k + 1] && ChunkFate(s, chunks[k + 1], n + (k + 1)).Refusal?;
      }
    }
    assert forall k :: 1 <= k < |chunks| ==> chunks[k] == more[k - 1];
  }

  lemma {:induction false} LostIff(s: Session, chunks: seq<Chunk>, n: nat)
    requires AreCalls(chunks)
    ensures Lost(s, chunks, n) >= 0
    ensures Lost(s, chunks, n) == 0 <==> NoneLost(s, chunks, n)
  {
    if chunks != [] {
      NoneLostCons(s, chunks, n);
      LostIff(s, chunks[1..], n + 1);
    }
  }

  // ---------- position by position ----------

  /** The entries hold exactly the answers of the requests that came through, each in its place. */
  ghost predicate Carries(s: Session, entries: seq<Entry>, chunks: seq<Chunk>, n: nat) {
    && (forall p: nat :: p < |Concat(chunks)| && FateIn(s, chunks, n, p).Through? ==>
          PlaceIn(s, chunks, n, p) < |entries|
          && entries[PlaceIn(s, chunks, n, p)] == ToEntry(s.answer(Single(Concat(chunks)[p]))))
    && (forall i: nat :: i < |entries| && entries[i].Answer? ==> Comes(s, chunks, n, i))
  }

  ghost predicate Comes(s: Session, chunks: seq<Chunk>, n: nat, i: nat) {
    exists p: nat :: p < |Concat(chunks)| && FateIn(s, chunks, n, p).Through? && PlaceIn(s, chunks, n, p) == i
  }

  lemma LaterRequest(s: Session, chunks: seq<Chunk>, n: nat, q: nat)
    requires chunks != [] && q < |Concat(chunks[1..])|
    ensures var p := |chunks[0]| + q;
            && p < |Concat(chunks)| && Concat(chunks)[p] == Concat(chunks[1..])[q]
            && FateIn(s, chunks, n, p) == FateIn(s, chunks[1..], n + 1, q)
            && PlaceIn(s, chunks, n, p) == Share(s, chunks[0], n) + PlaceIn(s, chunks[1..], n + 1, q)
  {}

  lemma Behind<T>(a: seq<T>, b: seq<T>, i: nat)
    requires i < |b|
    ensures (a + b)[|a| + i] == b[i]
  {}

  lemma AnswerPlaced(s: Session, chunks: seq<Chunk>, n: nat, first: seq<Entry>, later: seq<Entry>, p: nat)
    requires p < |Concat(chunks)| && FateIn(s, chunks, n, p).Through?
    requires Serves(s, chunks[0], n, first) && Carries(s, later, chunks[1..], n + 1)
    ensures PlaceIn(s, chunks, n, p) < |first + later|
    ensures (first + later)[PlaceIn(s, chunks, n, p)] == ToEntry(s.answer(Single(Concat(chunks)[p])))
  {
    if p >= |chunks[0]| {
      var q := p - |chunks[0]|;
      LaterRequest(s, chunks, n, q);
      Behind(first, later, PlaceIn(s, chunks[1..], n + 1, q));
    }
  }

  lemma AnswerComes(s: Session, chunks: seq<Chunk>, n: nat, first: seq<Entry>, later: seq<Entry>, i: nat)
    requires chunks != [] && i < |first + later| && (first + later)[i].Answer?
    requires Serves(s, chunks[0], n, first) && Carries(s, later, chunks[1..], n + 1)
    ensures Comes(s, chunks, n, i)
  {
    if i < |first| {
      assert FateIn(s, chunks, n, i).Through? && PlaceIn(s, chunks, n, i) == i;
    } else {
      var more := chunks[1..];
      assert Comes(s, more, n + 1, i - |first|);
      var q: nat :| q < |Concat(more)| && FateIn(s, more, n + 1, q).Through?
                    && PlaceIn(s, more, n + 1, q) == i - |first|;
      LaterRequest(s, chunks, n, q);
    }
  }

  lemma CarriesMore(s: Session, chunks: seq<Chunk>, n: nat, first: seq<Entry>, later: seq<Entry>)
    requires chunks != [] && Serves(s, chunks[0], n, first) && Carries(s, later, chunks[1..], n + 1)
    ensures Carries(s, first + later, chunks, n)
  {
    forall p: nat | p < |Concat(chunks)| && FateIn(s, chunks, n, p).Through?
      ensures PlaceIn(s, chunks, n, p) < |first + later|
      ensures (first + later)[PlaceIn(s, chunks, n, p)] == ToEntry(s.answer(Single(Concat(chunks)[p])))
    {
      AnswerPlaced(s, chunks, n, first, later, p);
    }
    forall i: nat | i < |first + later| && (first + later)[i].Answer? ensures Comes(s, chunks, n, i) {
      AnswerComes(s, chunks, n, first, later, i);
    }
  }

  lemma {:induction false} CombinedCarries(s: Session, chunks: seq<Chunk>, n: nat)
    requires s.Works() && AreCalls(chunks)
    ensures Carries(s, Combined(chunks, s.link, n), chunks, n)
  {
    if chunks != [] {
      CombinedCarries(s, chunks[1..], n + 1);
      FatedChunk(s, chunks[0], n);
      CarriesMore(s, chunks, n, ChunkEntries(chunks[0], s.link, n), Combined(chunks[1..], s.link, n + 1));
    }
  }

  /** Every request whose call came through has its answer in its place, and every answer has its request. */
  lemma SessionCarries(s: Session, requests: seq<Request>)
    requires s.Works() && Separated(requests)
    ensures forall p: nat :: p < |requests| && FateOf(s, requests, p).Through? ==>
              Place(s, requests, p) < |s.ReadAll(requests)|
              && s.ReadAll(requests)[Place(s, requests, p)] == ToEntry(s.answer(Single(requests[p])))
    ensures forall i: nat :: i < |s.ReadAll(requests)| && s.ReadAll(requests)[i].Answer? ==>
              exists p: nat :: p < |requests| && FateOf(s, requests, p).Through? && Place(s, requests, p) == i
  {
    var chunks := Chunks(requests, s.size);
    SeparatedCalls(s, requests);
    CombinedCarries(s, chunks, 0);
    forall i: nat | i < |s.ReadAll(requests)| && s.ReadAll(requests)[i].Answer?
      ensures exists p: nat :: p < |requests| && FateOf(s, requests, p).Through? && Place(s, requests, p) == i
    {
      assert Comes(s, chunks, 0, i);
      var p: nat :| p < |requests| && FateIn(s, chunks, 0, p).Through? && PlaceIn(s, chunks, 0, p) == i;
      assert FateOf(s, requests, p).Through? && Place(s, requests, p) == i;
    }
  }

  lemma {:induction false} PlaceWhenNoneLost(s: Session, chunks: seq<Chunk>, n: nat, p: nat)
    requires AreCalls(chunks) && p < |Concat(chunks)| && NoneLost(s, chunks, n)
    ensures PlaceIn(s, chunks, n, p) == p
  {
    if p >= |chunks[0]| {
      NoneLostCons(s, chunks, n);
      PlaceWhenNoneLost(s, chunks[1..], n + 1, p - |chunks[0]|);
    }
  }

  /** Entry `p` is the answer to request `p`, or an error entry when its call did not come through. */
  ghost predicate InPlace(s: Session, entries: seq<Entry>, requests: seq<Request>)
    requires s.size >= 1
  {
    && |entries| == |requests|
    && forall p: nat :: p < |requests| ==>
         entries[p] == if FateOf(s, requests, p).Through? then ToEntry(s.answer(Single(requests[p]))) else Failed
  }

  /** Entries keep the place of their requests exactly when no refused chunk has two or more requests. */
  lemma InPlaceIff(s: Session, requests: seq<Request>)
    requires s.Works() && Separated(requests)
    ensures InPlace(s, s.ReadAll(requests), requests) <==> NoneLost(s, Chunks(requests, s.size), 0)
  {
    var entries, chunks := s.ReadAll(requests), Chunks(requests, s.size);
    SeparatedCalls(s, requests);
    SessionLength(s, requests);
    LostIff(s, chunks, 0);
    if NoneLost(s, chunks, 0) {
      SessionCarries(s, requests);
      forall p: nat | p < |requests| ensures Place(s, requests, p) == p {
        PlaceWhenNoneLost(s, chunks, 0, p);
      }
    }
  }

  lemma OnlyChunk(s: Session, chunk: Chunk)
    requires chunk != [] && |chunk| <= s.size
    ensures Chunks(chunk, s.size) == [chunk] && s.ReadAll(chunk) == ChunkEntries(chunk, s.link, 0)
  {
    assert Chunks(chunk, s.size) == [chunk] && [chunk][1..] == [];
    assert Combined([chunk][1..], s.link, 1) == [];
  }

  /** A refused chunk of two leaves one entry for two requests. */
  lemma RefusalShifts(s: Session, a: Request, b: Request)
    requires s.Works() && s.size == 2 && s.line(0).Refusal? && Separated([a, b])
    requires IsKnown(a, s.link.vendor) && IsKnown(b, s.link.vendor)
    ensures s.ReadAll([a, b]) == [Failed] && !InPlace(s, s.ReadAll([a, b]), [a, b])
  {
    OneCall([a, b], s.link, 0);
    FatedChunk(s, [a, b], 0);
    OnlyChunk(s, [a, b]);
  }

  /** What coming through takes: the line lets the call through, and the vendor tables know every request that
      shares the chunk. */
  lemma {:induction false} ThroughInIff(s: Session, chunks: seq<Chunk>, n: nat, p: nat) returns (c: nat)
    requires AreCalls(chunks) && p < |Concat(chunks)|
    ensures c < |chunks| && Concat(chunks)[p] in chunks[c]
    ensures |Concat(chunks[..c])| <= p < |Concat(chunks[..c])| + |chunks[c]|
    ensures FateIn(s, chunks, n, p).Through? <==>
            s.line(n + c).Through? && forall r :: r in chunks[c] ==> IsKnown(r, s.link.vendor)
  {
    var first, more := chunks[0], chunks[1..];
    if p < |first| {
      c := 0;
      OneCall(first, s.link, n);
      assert Concat(chunks)[p] == first[p];
    } else {
      c := ThroughInIff(s, more, n + 1, p - |first|);
      LaterRequest(s, chunks, n, p - |first|);
      assert more[c] == chunks[c + 1] && chunks[..c + 1][1..] == more[..c];
      c := c + 1;
    }
  }

  lemma ThroughIff(s: Session, requests: seq<Request>, p: nat) returns (c: nat)
    requires s.size >= 1 && p < |requests| && Separated(requests)
    ensures c < |Chunks(requests, s.size)| && requests[p] in Chunks(requests, s.size)[c]
    ensures var chunks := Chunks(requests, s.size);
            |Concat(chunks[..c])| <= p < |Concat(chunks[..c])| + |chunks[c]|
    ensures FateOf(s, requests, p).Through? <==>
            && s.line(c).Through?
            && forall r :: r in Chunks(requests, s.size)[c] ==> IsKnown(r, s.link.vendor)
  {
    SeparatedCalls(s, requests);
    c := ThroughInIff(s, Chunks(requests, s.size), 0, p);
  }

  /** A single known request on a line that lets it through. */
  lemma SingleComes(s: Session, r: Request)
    requires s.size >= 1 && IsSeparator(r.oid) && IsKnown(r, s.link.vendor) && s.line(0).Through?
    ensures GotThrough(s, [r], r.oid)
  {
    OnlyChunk(s, [r]);
    var c := ThroughIff(s, [r], 0);
    assert [r][0].oid == r.oid;
  }
}
