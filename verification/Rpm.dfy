/** Read-Property-Multiple: the token list that carries a request, its parse into groups of one object and
    its properties, and the splitting of long requests into chunks. */
module Rpm {

  import opened Wrappers

  datatype Group = Group(oid: string, properties: seq<string>)

  /** A token that reads as the next object identifier. */
  predicate IsSeparator(token: string) {
    ':' in token || ',' in token
  }

  // ---------- tokens and groups ----------

  function Tokens(g: Group): seq<string> {
    [g.oid] + g.properties
  }

  function Flatten(groups: seq<Group>): seq<string> {
    if groups == [] then [] else Tokens(groups[0]) + Flatten(groups[1..])
  }

  lemma FlattenCons(g: Group, more: seq<Group>)
    ensures Flatten([g] + more) == Tokens(g) + Flatten(more)
  {
    assert ([g] + more)[1..] == more;
  }

  /** The first separator from position `i` on, or the end. */
  function NextSeparator(tokens: seq<string>, i: nat): (n: nat)
    requires i <= |tokens|
    ensures i <= n <= |tokens|
    ensures forall j :: i <= j < n ==> !IsSeparator(tokens[j])
    ensures n < |tokens| ==> IsSeparator(tokens[n])
    decreases |tokens| - i
  {
    if i == |tokens| || IsSeparator(tokens[i]) then i else NextSeparator(tokens, i + 1)
  }

  /** The properties after an object identifier: the first token whatever it is, then up to a separator. */
  function Taken(tokens: seq<string>): (n: nat)
    ensures n <= |tokens|
  {
    if tokens == [] then 0 else NextSeparator(tokens, 1)
  }

  /** The group at the front of a token list, and what follows it. */
  function Front(tokens: seq<string>): Group
    requires tokens != []
  {
    var rest := tokens[1..];
    Group(tokens[0], rest[..Taken(rest)])
  }

  function After(tokens: seq<string>): (after: seq<string>)
    requires tokens != []
    ensures |after| < |tokens|
  {
    var rest := tokens[1..];
    rest[Taken(rest)..]
  }

  function Parse(tokens: seq<string>): seq<Group>
    decreases |tokens|
  {
    if tokens == [] then [] else [Front(tokens)] + Parse(After(tokens))
  }

  lemma FrontAndAfter(tokens: seq<string>)
    requires tokens != []
    ensures Tokens(Front(tokens)) + After(tokens) == tokens
  {
    var rest := tokens[1..];
    assert rest == rest[..Taken(rest)] + rest[Taken(rest)..];
    assert tokens == [tokens[0]] + rest;
  }

  /** Groups that a token list can express: each but the last has a property, each but the first is named by
      a separator, and no property after a group's first one is a separator. */
  predicate Expressible(groups: seq<Group>) {
    && (forall i :: 0 <= i < |groups| - 1 ==> groups[i].properties != [])
    && (forall i :: 1 <= i < |groups| ==> IsSeparator(groups[i].oid))
    && (forall i, j :: 0 <= i < |groups| && 1 <= j < |groups[i].properties| ==>
          !IsSeparator(groups[i].properties[j]))
  }

  /** Parsing loses nothing: printing the groups gives the tokens back. */
  lemma {:induction false} FlattenParse(tokens: seq<string>)
    ensures Flatten(Parse(tokens)) == tokens
    decreases |tokens|
  {
    if tokens != [] {
      FlattenParse(After(tokens));
      FlattenCons(Front(tokens), Parse(After(tokens)));
      FrontAndAfter(tokens);
    }
  }

  lemma FrontShape(tokens: seq<string>)
    requires tokens != []
    ensures var g := Front(tokens);
            && (forall j :: 1 <= j < |g.properties| ==> !IsSeparator(g.properties[j]))
            && (After(tokens) != [] ==> g.properties != [] && IsSeparator(After(tokens)[0]))
  {}

  lemma {:induction false} ParseExpressible(tokens: seq<string>)
    ensures Expressible(Parse(tokens))
    ensures tokens != [] ==> Parse(tokens) != [] && Parse(tokens)[0].oid == tokens[0]
    decreases |tokens|
  {
    if tokens != [] {
      FrontShape(tokens);
      ParseExpressible(After(tokens));
      ConsExpressible(Front(tokens), Parse(After(tokens)));
    }
  }

  /** The groups of a parse: a group behind the first is named by a token with a colon or a comma, its later
      properties have neither, and only the last group can be without properties. */
  lemma ParseShape(tokens: seq<string>)
    ensures var groups := Parse(tokens);
            && (forall i :: 1 <= i < |groups| ==> ':' in groups[i].oid || ',' in groups[i].oid)
            && (forall i, j :: 0 <= i < |groups| && 1 <= j < |groups[i].properties| ==>
                  ':' !in groups[i].properties[j] && ',' !in groups[i].properties[j])
            && (forall i :: 0 <= i < |groups| - 1 ==> groups[i].properties != [])
  {
    ParseExpressible(tokens);
  }

  lemma ConsExpressible(g: Group, more: seq<Group>)
    ensures Expressible([g] + more) <==>
            && Expressible(more)
            && (forall j :: 1 <= j < |g.properties| ==> !IsSeparator(g.properties[j]))
            && (more != [] ==> g.properties != [] && IsSeparator(more[0].oid))
  {
    var all := [g] + more;
    assert forall i :: 1 <= i < |all| ==> all[i] == more[i - 1];
    if Expressible(all) {
      assert all[0] == g;
      forall i | 0 <= i < |more|
        ensures i < |more| - 1 ==> more[i].properties != []
        ensures IsSeparator(more[i].oid)
        ensures forall j :: 1 <= j < |more[i].properties| ==> !IsSeparator(more[i].properties[j])
      {
        assert more[i] == all[i + 1];
      }
    }
  }

  lemma FrontOf(g: Group, rest: seq<string>)
    requires forall j :: 1 <= j < |g.properties| ==> !IsSeparator(g.properties[j])
    requires rest != [] ==> g.properties != [] && IsSeparator(rest[0])
    ensures Front(Tokens(g) + rest) == g && After(Tokens(g) + rest) == rest
  {
    var tail := (Tokens(g) + rest)[1..];
    assert tail == g.properties + rest;
    assert forall j :: 0 <= j < |g.properties| ==> tail[j] == g.properties[j];
    assert rest != [] ==> tail[|g.properties|] == rest[0];
    assert Taken(tail) == |g.properties|;
  }

  lemma {:induction false} ParseOfFlatten(groups: seq<Group>)
    requires Expressible(groups)
    ensures Parse(Flatten(groups)) == groups
  {
    if groups != [] {
      var g, more := groups[0], groups[1..];
      assert groups == [g] + more;
      ConsExpressible(g, more);
      ParseOfFlatten(more);
      assert more != [] ==> Flatten(more)[0] == more[0].oid;
      FrontOf(g, Flatten(more));
    }
  }

  /** The round trip from groups succeeds exactly on expressible groups, so printing and parsing are inverse
      bijections between those and all token lists. */
  lemma RoundTripIff(groups: seq<Group>)
    ensures Parse(Flatten(groups)) == groups <==> Expressible(groups)
  {
    if Expressible(groups) {
      ParseOfFlatten(groups);
    } else {
      ParseExpressible(Flatten(groups));
    }
  }

  // ---------- one property per request ----------

  datatype Request = Request(oid: string, property: string)

  function Groups(requests: seq<Request>): seq<Group> {
    seq(|requests|, i requires 0 <= i < |requests| => Group(requests[i].oid, [requests[i].property]))
  }

  function Arguments(requests: seq<Request>): seq<string> {
    if requests == [] then []
    else Arguments(requests[..|requests| - 1])
         + [requests[|requests| - 1].oid, requests[|requests| - 1].property]
  }

  lemma {:induction false} FlattenAppend(groups: seq<Group>, g: Group)
    ensures Flatten(groups + [g]) == Flatten(groups) + Tokens(g)
  {
    if groups == [] {
      assert [g][1..] == [];
      assert Flatten([g]) == Tokens(g);
    } else {
      assert (groups + [g])[1..] == groups[1..] + [g];
      FlattenAppend(groups[1..], g);
    }
  }

  lemma {:induction false} ArgumentsFlatten(requests: seq<Request>)
    ensures Arguments(requests) == Flatten(Groups(requests))
  {
    if requests != [] {
      var most, last := requests[..|requests| - 1], requests[|requests| - 1];
      ArgumentsFlatten(most);
      FlattenAppend(Groups(most), Group(last.oid, [last.property]));
      assert Groups(requests) == Groups(most) + [Group(last.oid, [last.property])];
    }
  }

  lemma GroupsExpressible(requests: seq<Request>)
    ensures Expressible(Groups(requests)) <==> forall i :: 1 <= i < |requests| ==> IsSeparator(requests[i].oid)
  {
    var groups := Groups(requests);
    assert forall i :: 0 <= i < |requests| ==> groups[i] == Group(requests[i].oid, [requests[i].property]);
    assert (forall i :: 1 <= i < |groups| ==> IsSeparator(groups[i].oid))
        <==> (forall i :: 1 <= i < |requests| ==> IsSeparator(requests[i].oid));
  }

  /** Requests parse back one group each, in order, exactly when every object identifier after the first
      has a separator; the properties may be anything. */
  lemma RequestsParseIff(requests: seq<Request>)
    ensures Parse(Arguments(requests)) == Groups(requests)
            <==> forall i :: 1 <= i < |requests| ==> IsSeparator(requests[i].oid)
  {
    ArgumentsFlatten(requests);
    RoundTripIff(Groups(requests));
    GroupsExpressible(requests);
  }

  // ---------- the parse loop ----------

  /** What the vendor tables make of an object identifier. */
  datatype Verdict = Rejected | NoClass | Known

  datatype Vendor = Vendor(verdict: string -> Verdict, isProperty: string -> bool)

  /** The groups to ask for, one error entry for an object type without a class, or a raised exception. */
  datatype Parsed = Accepted(groups: seq<Group>) | Unrecognized(oid: string) | Raised

  predicate AllProperties(properties: seq<string>, vendor: Vendor) {
    forall i :: 0 <= i < |properties| ==> vendor.isProperty(properties[i])
  }

  /** The first token the tables do not accept decides, in token order. */
  function Check(groups: seq<Group>, vendor: Vendor): Parsed {
    if groups == [] then Accepted([])
    else
      match vendor.verdict(groups[0].oid)
      case Rejected => Raised
      case NoClass => Unrecognized(groups[0].oid)
      case Known =>
        if !AllProperties(groups[0].properties, vendor) then Raised
        else
          match Check(groups[1..], vendor)
          case Accepted(more) => Accepted([groups[0]] + more)
          case other => other
  }

  /** A group that the tables know, with known properties only. */
  predicate Fine(g: Group, vendor: Vendor) {
    vendor.verdict(g.oid).Known? && AllProperties(g.properties, vendor)
  }

  /** The first group that is not fine. */
  ghost predicate FirstFault(groups: seq<Group>, vendor: Vendor, i: nat) {
    i < |groups| && !Fine(groups[i], vendor) && forall j :: 0 <= j < i ==> Fine(groups[j], vendor)
  }

  /** A request is accepted as it is when all its groups are fine; otherwise its first fault decides: an object
      type without a class ends it quietly, anything else raises. */
  lemma {:induction false} CheckIsFirstFault(groups: seq<Group>, vendor: Vendor)
    ensures Check(groups, vendor).Accepted? <==> forall g :: g in groups ==> Fine(g, vendor)
    ensures Check(groups, vendor).Accepted? ==> Check(groups, vendor).groups == groups
    ensures Check(groups, vendor).Unrecognized? <==>
            exists i: nat :: FirstFault(groups, vendor, i) && vendor.verdict(groups[i].oid).NoClass?
    ensures Check(groups, vendor).Raised? <==>
            exists i: nat :: FirstFault(groups, vendor, i) && !vendor.verdict(groups[i].oid).NoClass?
  {
    if groups != [] {
      var more := groups[1..];
      CheckIsFirstFault(more, vendor);
      assert forall g :: g in groups <==> g == groups[0] || g in more;
      if Fine(groups[0], vendor) {
        assert forall i: nat :: FirstFault(more, vendor, i) ==>
          FirstFault(groups, vendor, i + 1) && groups[i + 1] == more[i];
        assert forall i: nat :: FirstFault(groups, vendor, i) ==> i > 0 && FirstFault(more, vendor, i - 1);
      } else {
        assert FirstFault(groups, vendor, 0);
        assert forall i: nat :: FirstFault(groups, vendor, i) ==> i == 0;
      }
    }
  }

  /** The accepted groups so far, in front of the outcome for the rest. */
  function Prefixed(done: seq<Group>, rest: Parsed): Parsed {
    if rest.Accepted? then Accepted(done + rest.groups) else rest
  }

  lemma PrefixedTwice(a: seq<Group>, b: seq<Group>, rest: Parsed)
    ensures Prefixed(a, Prefixed(b, rest)) == Prefixed(a + b, rest)
  {
    if rest.Accepted? {
      assert a + (b + rest.groups) == a + b + rest.groups;
    }
  }

  /** Pops the properties of one group. */
  method PopProperties(tokens: seq<string>, vendor: Vendor)
    returns (properties: seq<string>, rest: seq<string>, ok: bool)
    ensures ok <==> AllProperties(tokens[..Taken(tokens)], vendor)
    ensures ok ==> properties == tokens[..Taken(tokens)] && rest == tokens[Taken(tokens)..]
  {
    properties, rest, ok := [], tokens, true;
    var more := tokens != [];
    while more
      invariant |properties| <= |tokens| && properties == tokens[..|properties|] && rest == tokens[|properties|..]
      invariant AllProperties(properties, vendor)
      invariant more ==> |properties| < Taken(tokens)
      invariant !more ==> |properties| == Taken(tokens)
      decreases |rest|, more
    {
      var property := rest[0];
      if !vendor.isProperty(property) {
        assert tokens[..Taken(tokens)][|properties|] == property;
        ok := false;
        return;
      }
      properties, rest := properties + [property], rest[1..];
      more := rest != [] && !IsSeparator(rest[0]);
    }
  }

  lemma CheckFront(tokens: seq<string>, vendor: Vendor)
    requires tokens != []
    ensures Check(Parse(tokens), vendor) ==
            match vendor.verdict(tokens[0])
            case Rejected => Raised
            case NoClass => Unrecognized(tokens[0])
            case Known =>
              if AllProperties(Front(tokens).properties, vendor)
              then Prefixed([Front(tokens)], Check(Parse(After(tokens)), vendor))
              else Raised
  {
    assert Parse(tokens)[1..] == Parse(After(tokens));
  }

  /** Pops one group, or finds what makes the whole request fail. */
  method PopGroup(tokens: seq<string>, vendor: Vendor)
    returns (failure: Option<Parsed>, g: Group, rest: seq<string>)
    requires tokens != []
    ensures failure.Some? ==> failure.value == Check(Parse(tokens), vendor) && !failure.value.Accepted?
    ensures failure.None? ==> rest == After(tokens)
    ensures failure.None? ==> Check(Parse(tokens), vendor) == Prefixed([g], Check(Parse(rest), vendor))
  {
    g, rest := Group(tokens[0], []), [];
    CheckFront(tokens, vendor);
    match vendor.verdict(tokens[0]) {
      case Rejected => failure := Some(Raised);
      case NoClass => failure := Some(Unrecognized(tokens[0]));
      case Known =>
        var properties, after, ok := PopProperties(tokens[1..], vendor);
        if ok {
          failure, g, rest := None, Group(tokens[0], properties), after;
          assert g == Front(tokens);
        } else {
          failure := Some(Raised);
        }
    }
  }

  /** The groups of a request, or the first thing the vendor tables do not accept. */
  method ParseTokens(tokens: seq<string>, vendor: Vendor) returns (parsed: Parsed)
    ensures parsed == Check(Parse(tokens), vendor)
  {
    var groups: seq<Group>, rest := [], tokens;
    while rest != []
      invariant Check(Parse(tokens), vendor) == Prefixed(groups, Check(Parse(rest), vendor))
      decreases |rest|
    {
      var failure, g, after := PopGroup(rest, vendor);
      if failure.Some? {
        return failure.value;
      }
      PrefixedTwice(groups, [g], Check(Parse(after), vendor));
      groups, rest := groups + [g], after;
    }
    parsed := Accepted(groups);
  }

  // ---------- chunks ----------

  function Chunks<T>(s: seq<T>, size: nat): seq<seq<T>>
    requires size >= 1
  {
    if |s| <= size then (if s == [] then [] else [s])
    else [s[..size]] + Chunks(s[size..], size)
  }

  function Concat<T>(parts: seq<seq<T>>): seq<T> {
    if parts == [] then [] else parts[0] + Concat(parts[1..])
  }

  /** Chunks are a partition: in order, none empty, all full but the last. */
  lemma {:induction false} ChunksPartition<T>(s: seq<T>, size: nat)
    requires size >= 1
    ensures Concat(Chunks(s, size)) == s
    ensures forall i :: 0 <= i < |Chunks(s, size)| ==> 1 <= |Chunks(s, size)[i]| <= size
    ensures forall i :: 0 <= i < |Chunks(s, size)| - 1 ==> |Chunks(s, size)[i]| == size
  {
    if |s| > size {
      ChunksPartition(s[size..], size);
      assert s == s[..size] + s[size..];
      assert Chunks(s, size)[1..] == Chunks(s[size..], size);
    } else if s != [] {
      assert [s][1..] == [];
      assert Concat([s]) == s;
    }
  }
}
