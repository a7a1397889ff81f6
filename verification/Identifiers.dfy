/** Object identifiers as text: how they print, how they are validated, and the canonical form that makes
    answers comparable with requests. */
module Identifiers {

  import opened Wrappers
  import opened Strings
  import opened Points

  /** An object identifier of a remote device: a type name and an instance number. */
  datatype Oid = Oid(kind: string, instance: nat)

  /** Type names of the BACnet vocabulary carry no separators. */
  predicate TypeName(t: string) {
    t != "" && ' ' !in t && ',' !in t && '(' !in t && ')' !in t
  }

  // ---------- decimal numbers ----------

  predicate IsDigit(c: char) {
    '0' <= c <= '9'
  }

  function Decimal(n: nat): (s: string)
    ensures s != "" && forall i :: 0 <= i < |s| ==> IsDigit(s[i])
  {
    var last := ['0' + (n % 10) as char];
    if n < 10 then last else Decimal(n / 10) + last
  }

  /** Reads plain decimal digits. */
  function Value(s: string): Option<nat> {
    if s == "" || !IsDigit(s[|s| - 1]) then None
    else
      var last := (s[|s| - 1] - '0') as nat;
      if |s| == 1 then Some(last)
      else
        match Value(s[..|s| - 1])
        case None => None
        case Some(v) => Some(10 * v + last)
  }

  lemma {:induction false} DecimalReadsBack(n: nat)
    ensures Value(Decimal(n)) == Some(n)
  {
    if n >= 10 {
      DecimalReadsBack(n / 10);
      assert Decimal(n)[..|Decimal(n)| - 1] == Decimal(n / 10);
    }
  }

  /** Digits count by tens. */
  lemma {:induction false} DigitsCount(s: string, c: char)
    requires Value(s).Some? && '0' <= c <= '9'
    ensures Value(s + [c]) == Some(10 * Value(s).value + (c as int - '0' as int))
    ensures Value([c]) == Some(c as int - '0' as int)
  {
    assert (s + [c])[..|s|] == s;
  }

  // ---------- the canonical form ----------

  function Canonical(o: Oid): string {
    o.kind + "," + Decimal(o.instance)
  }

  function IndexFrom(s: string, c: char, i: nat): (r: nat)
    requires i <= |s| && c in s[i..]
    ensures i <= r < |s| && s[r] == c && forall j :: i <= j < r ==> s[j] != c
    decreases |s| - i
  {
    if s[i] == c then i else IndexFrom(s, c, i + 1)
  }

  function IndexOf(s: string, c: char): (i: nat)
    requires c in s
    ensures i < |s| && s[i] == c && forall j :: 0 <= j < i ==> s[j] != c
  {
    assert s[0..] == s;
    IndexFrom(s, c, 0)
  }

  function WithoutSpaces(s: string): string {
    if s == "" then ""
    else (if s[0] == ' ' then "" else [s[0]]) + WithoutSpaces(s[1..])
  }

  /** "type,instance" without spaces, from any of the ways an identifier prints. */
  function Normalize(shown: string): string {
    var s := Strip(shown);
    if s != "" && s[0] == '(' && ')' in s then WithoutSpaces(s[1..IndexOf(s, ')')])
    else if ',' in s then Strip(s[..IndexOf(s, ',')]) + "," + Strip(s[IndexOf(s, ',') + 1..])
    else s
  }

  lemma StripPadded(a: nat, core: string, b: nat)
    requires core != "" && core[0] != ' ' && core[|core| - 1] != ' '
    ensures Strip(Spaces(a) + core + Spaces(b)) == core
  {
    var s := Spaces(a) + core + Spaces(b);
    assert s[a] == core[0] && s[a + |core| - 1] == core[|core| - 1];
    assert End(s, ' ', |s|) == a + |core|;
    var r := StripRight(s, ' ');
    assert r[a] == core[0];
    assert Start(r, 0) == a;
    assert r[a..] == core;
  }

  lemma {:induction false} WithoutSpacesConcat(a: string, b: string)
    ensures WithoutSpaces(a + b) == WithoutSpaces(a) + WithoutSpaces(b)
  {
    if a == "" {
      assert a + b == b;
    } else {
      assert (a + b)[1..] == a[1..] + b;
      WithoutSpacesConcat(a[1..], b);
    }
  }

  lemma {:induction false} WithoutSpacesOfNone(a: string)
    requires ' ' !in a
    ensures WithoutSpaces(a) == a
  {
    if a != "" {
      WithoutSpacesOfNone(a[1..]);
    }
  }

  lemma {:induction false} WithoutSpacesOfAll(a: nat)
    ensures WithoutSpaces(Spaces(a)) == ""
  {
    if a > 0 {
      assert Spaces(a)[1..] == Spaces(a - 1);
      WithoutSpacesOfAll(a - 1);
    }
  }

  lemma IndexIsFirst(s: string, c: char, i: nat)
    requires i < |s| && s[i] == c && c !in s[..i]
    ensures c in s && IndexOf(s, c) == i
  {
    assert forall j :: 0 <= j < i ==> s[j] == s[..i][j];
  }

  function Joined(left: string, right: string): string {
    left + "," + right
  }

  lemma SplitsAtComma(left: string, right: string)
    requires ',' !in left
    ensures var s := Joined(left, right);
            ',' in s && IndexOf(s, ',') == |left| && s[..|left|] == left && s[|left| + 1..] == right
  {
    assert Joined(left, right)[..|left|] == left;
    IndexIsFirst(Joined(left, right), ',', |left|);
  }

  /** "type , instance" with any spacing. */
  function Plain(o: Oid, a: nat, b: nat, c: nat, d: nat): string {
    Spaces(a) + Joined(o.kind + Spaces(b), Spaces(c) + Decimal(o.instance)) + Spaces(d)
  }

  /** "(type , instance)" with any spacing, whatever follows. */
  function Paired(o: Oid, a: nat, b: nat, c: nat, d: nat, rest: string): string {
    ("(" + Joined(Spaces(a) + o.kind + Spaces(b), Spaces(c) + Decimal(o.instance) + Spaces(d))) + (")" + rest)
  }

  lemma StripPart(a: nat, core: string, b: nat)
    requires core != "" && core[0] != ' ' && core[|core| - 1] != ' '
    ensures Strip(Spaces(a) + core) == core && Strip(core + Spaces(b)) == core && Strip(core) == core
  {
    StripPadded(a, core, 0);
    StripPadded(0, core, b);
    StripPadded(0, core, 0);
    assert Spaces(a) + core + Spaces(0) == Spaces(a) + core;
    assert Spaces(0) + core + Spaces(b) == core + Spaces(b);
    assert Spaces(0) + core + Spaces(0) == core;
  }

  lemma NormalizesPlain(o: Oid, a: nat, b: nat, c: nat, d: nat)
    requires TypeName(o.kind)
    ensures Normalize(Plain(o, a, b, c, d)) == Canonical(o)
  {
    var number := Decimal(o.instance);
    var left, right := o.kind + Spaces(b), Spaces(c) + number;
    var core := Joined(left, right);
    assert core[0] == o.kind[0] && core[|core| - 1] == number[|number| - 1];
    StripPadded(a, core, d);
    SplitsAtComma(left, right);
    StripPart(0, o.kind, b);
    StripPart(c, number, 0);
  }

  lemma WithoutSpacesPadded(a: nat, core: string, b: nat)
    requires ' ' !in core
    ensures WithoutSpaces(Spaces(a) + core + Spaces(b)) == core
  {
    WithoutSpacesConcat(Spaces(a) + core, Spaces(b));
    WithoutSpacesConcat(Spaces(a), core);
    WithoutSpacesOfAll(a);
    WithoutSpacesOfAll(b);
    WithoutSpacesOfNone(core);
  }

  lemma NormalizesParens(s: string, close: nat)
    requires 1 <= close < |s| && s[0] == '(' && s[close] == ')' && ')' !in s[..close]
    requires s[|s| - 1] != ' '
    ensures Normalize(s) == WithoutSpaces(s[1..close])
  {
    StripPart(0, s, 0);
    IndexIsFirst(s, ')', close);
  }

  lemma NormalizesInside(inside: string, rest: string)
    requires ')' !in inside && (rest == "" || rest[|rest| - 1] != ' ')
    ensures Normalize(("(" + inside) + (")" + rest)) == WithoutSpaces(inside)
  {
    var head, tail := "(" + inside, ")" + rest;
    var s := head + tail;
    assert s[..|head|] == head && s[|head|] == ')' && s[|s| - 1] == tail[|tail| - 1];
    NormalizesParens(s, |head|);
    assert s[1..|head|] == inside;
  }

  lemma NormalizesPaired(o: Oid, a: nat, b: nat, c: nat, d: nat, rest: string)
    requires TypeName(o.kind) && (rest == "" || rest[|rest| - 1] != ' ')
    ensures Normalize(Paired(o, a, b, c, d, rest)) == Canonical(o)
  {
    var number := Decimal(o.instance);
    var left, right := Spaces(a) + o.kind + Spaces(b), Spaces(c) + number + Spaces(d);
    assert ')' !in left && ')' !in right;
    NormalizesInside(Joined(left, right), rest);
    WithoutSpacesConcat(left + ",", right);
    WithoutSpacesConcat(left, ",");
    WithoutSpacesOfNone(",");
    WithoutSpacesPadded(a, o.kind, b);
    WithoutSpacesPadded(c, number, d);
  }

  /** The canonical form: type name, comma, number. */
  lemma CanonicalShape(o: Oid)
    requires TypeName(o.kind)
    ensures var s := Canonical(o);
            && |o.kind| < |s| && s[..|o.kind|] == o.kind && s[|o.kind|] == ',' && ' ' !in s
            && Value(s[|o.kind| + 1..]) == Some(o.instance)
  {
    SplitsAtComma(o.kind, Decimal(o.instance));
    DecimalReadsBack(o.instance);
  }

  /** Different identifiers have different canonical forms. */
  lemma CanonicalSeparates(o: Oid, p: Oid)
    requires TypeName(o.kind) && TypeName(p.kind)
    ensures Canonical(o) == Canonical(p) ==> o == p
  {
    if Canonical(o) == Canonical(p) {
      var s := Canonical(o);
      SplitsAtComma(o.kind, Decimal(o.instance));
      SplitsAtComma(p.kind, Decimal(p.instance));
      assert s == Joined(o.kind, Decimal(o.instance)) == Joined(p.kind, Decimal(p.instance));
      DecimalReadsBack(o.instance);
      DecimalReadsBack(p.instance);
    }
  }

  // ---------- validation ----------

  datatype Rejection = NoComma | UnknownType | BadNumber | OutOfRange

  function ParseIdentifier(text: string, types: set<string>): Result<Oid, Rejection> {
    if ',' !in text then Err(NoComma)
    else
      var at := IndexOf(text, ',');
      var kind := Strip(text[..at]);
      if kind !in types then Err(UnknownType)
      else
        match Value(Strip(text[at + 1..]))
        case None => Err(BadNumber)
        case Some(n) => if n <= MAX_INSTANCE then Ok(Oid(kind, n)) else Err(OutOfRange)
  }

  function Zeros(z: nat): string {
    seq(z, _ => '0')
  }

  lemma {:induction false} ValueOfZeros(z: nat)
    requires z > 0
    ensures Value(Zeros(z)) == Some(0)
  {
    if z > 1 {
      assert Zeros(z)[..z - 1] == Zeros(z - 1);
      ValueOfZeros(z - 1);
    }
  }

  /** Leading zeros do not count. */
  lemma {:induction false} ValueWithZeros(z: nat, t: string)
    requires Value(t).Some?
    ensures Value(Zeros(z) + t) == Value(t)
  {
    var s, most := Zeros(z) + t, t[..|t| - 1];
    assert s[..|s| - 1] == Zeros(z) + most;
    if |t| > 1 {
      ValueWithZeros(z, most);
    } else if z > 0 {
      assert Zeros(z) + most == Zeros(z);
      ValueOfZeros(z);
    }
  }

  lemma DecimalMore(z: nat, v: nat, last: char) returns (more: nat)
    requires IsDigit(last)
    ensures (Zeros(z) + Decimal(v)) + [last] == Zeros(more) + Decimal(10 * v + (last - '0') as nat)
  {
    more := if v == 0 then z + 1 else z;
    assert v == 0 ==> Zeros(z) + Decimal(v) == Zeros(z + 1);
  }

  /** A numeral is some zeros in front of the decimal form of its value. */
  lemma {:induction false} ValueShape(s: string) returns (z: nat)
    requires Value(s).Some?
    ensures s == Zeros(z) + Decimal(Value(s).value)
  {
    var most, last := s[..|s| - 1], s[|s| - 1];
    assert s == most + [last];
    if |s| == 1 {
      z := 0;
      assert s == Zeros(0) + Decimal(Value(s).value);
    } else {
      z := ValueShape(most);
      z := DecimalMore(z, Value(most).value, last);
    }
  }

  predicate Trimmed(t: string) {
    t == "" || (t[0] != ' ' && t[|t| - 1] != ' ')
  }

  lemma StripSpaces(n: nat)
    ensures Strip(Spaces(n)) == ""
  {
    assert End(Spaces(n), ' ', n) == 0;
  }

  lemma StripIsCore(a: nat, core: string, b: nat)
    requires Trimmed(core)
    ensures Strip(Spaces(a) + core + Spaces(b)) == core
  {
    if core == "" {
      assert Spaces(a) + core + Spaces(b) == Spaces(a + b);
      StripSpaces(a + b);
    } else {
      StripPadded(a, core, b);
    }
  }

  /** A text is what remains of it when stripped, between spaces. */
  lemma StripShape(s: string) returns (a: nat, b: nat)
    ensures s == Spaces(a) + Strip(s) + Spaces(b) && Trimmed(Strip(s))
  {
    var right := StripRight(s, ' ');
    a, b := Start(right, 0), |s| - |right|;
    assert right == Spaces(a) + right[a..];
    assert s == right + Spaces(b);
    if right[a..] != "" {
      assert right[a..][|right| - a - 1] == right[|right| - 1];
    }
  }

  /** "type , instance" with any spacing and any leading zeros. */
  function Written(o: Oid, a: nat, b: nat, c: nat, z: nat, d: nat): string {
    Joined(Spaces(a) + o.kind + Spaces(b), Spaces(c) + (Zeros(z) + Decimal(o.instance)) + Spaces(d))
  }

  ghost predicate Writes(text: string, o: Oid) {
    exists a, b, c, z, d :: text == Written(o, a, b, c, z, d)
  }

  lemma WrittenIsParsed(o: Oid, types: set<string>, a: nat, b: nat, c: nat, z: nat, d: nat)
    requires Trimmed(o.kind) && ',' !in o.kind
    ensures ParseIdentifier(Written(o, a, b, c, z, d), types) ==
            if o.kind !in types then Err(UnknownType)
            else if o.instance > MAX_INSTANCE then Err(OutOfRange)
            else Ok(o)
  {
    var left, number := Spaces(a) + o.kind + Spaces(b), Zeros(z) + Decimal(o.instance);
    SplitsAtComma(left, Spaces(c) + number + Spaces(d));
    StripIsCore(a, o.kind, b);
    StripIsCore(c, number, d);
    DecimalReadsBack(o.instance);
    ValueWithZeros(z, Decimal(o.instance));
  }

  lemma PartsAreWritten(left: string, right: string)
    requires ',' !in left && Value(Strip(right)).Some?
    ensures var o := Oid(Strip(left), Value(Strip(right)).value);
            Trimmed(o.kind) && ',' !in o.kind && Writes(Joined(left, right), o)
  {
    var o := Oid(Strip(left), Value(Strip(right)).value);
    var a, b := StripShape(left);
    var c, d := StripShape(right);
    var z := ValueShape(Strip(right));
    assert forall i :: 0 <= i < |o.kind| ==> o.kind[i] == left[a + i];
    assert Joined(left, right) == Written(o, a, b, c, z, d);
  }

  lemma ParsedIsWritten(text: string, types: set<string>)
    requires ParseIdentifier(text, types).Ok?
    ensures var o := ParseIdentifier(text, types).value;
            o.kind in types && o.instance <= MAX_INSTANCE && Trimmed(o.kind) && ',' !in o.kind && Writes(text, o)
  {
    var at := IndexOf(text, ',');
    assert text == Joined(text[..at], text[at + 1..]);
    PartsAreWritten(text[..at], text[at + 1..]);
  }

  /** Validation accepts exactly the texts that write an identifier of a known type in range, with any spacing
      and any leading zeros, and gives back that identifier. */
  lemma ParseIdentifierIff(text: string, types: set<string>, o: Oid)
    ensures ParseIdentifier(text, types) == Ok(o) <==>
            && o.kind in types && o.instance <= MAX_INSTANCE && Trimmed(o.kind) && ',' !in o.kind
            && Writes(text, o)
  {
    if ParseIdentifier(text, types).Ok? {
      ParsedIsWritten(text, types);
    }
    if Trimmed(o.kind) && ',' !in o.kind && Writes(text, o) {
      var a, b, c, z, d :| text == Written(o, a, b, c, z, d);
      WrittenIsParsed(o, types, a, b, c, z, d);
    }
  }

  /** Every spaced rendering of an identifier is read back, or rejected for the reason that fits. */
  lemma ParseReadsBack(o: Oid, types: set<string>, a: nat, b: nat, c: nat, d: nat)
    requires TypeName(o.kind)
    ensures ParseIdentifier(Plain(o, a, b, c, d), types) ==
            if o.kind !in types then Err(UnknownType)
            else if o.instance > MAX_INSTANCE then Err(OutOfRange)
            else Ok(o)
  {
    var number := Decimal(o.instance);
    assert Zeros(0) + number == number;
    assert Plain(o, a, b, c, d) == Written(o, a, b, c, 0, d);
    WrittenIsParsed(o, types, a, b, c, 0, d);
  }
}
