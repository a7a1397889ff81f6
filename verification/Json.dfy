/** JSON values and the payloads of MQTT messages as the program's lexers read them. */
module Json {

  import opened Wrappers
  import opened Points

  datatype Json =
    | Null
    | Flag(b: bool)
    | Whole(i: int)
    | Fraction(r: real)
    | Text(s: string)
    | List(items: seq<Json>)
    | Object(fields: map<string, Json>)

  /** One of the words the bridge reads as on or off. */
  datatype Word = On | Off | Other

  /** A payload that is not UTF-8, or text with what each lexer makes of it. */
  datatype Payload =
    | Undecodable
    | Decoded(word: Word, asInt: Option<int>, asFloat: Option<real>, asJson: Option<Json>)

  /** Point updates accept strictly typed scalars only. */
  function ToScalar(j: Json): Option<Scalar> {
    match j
    case Flag(b) => Some(Bool(b))
    case Whole(i) => Some(Int(i))
    case Fraction(r) => Some(Real(r))
    case _ => None
  }

  function ToUpdate(j: Json): (r: Option<map<string, Scalar>>)
    ensures r.Some? <==> j.Object? && forall n :: n in j.fields ==> ToScalar(j.fields[n]).Some?
    ensures r.Some? ==> r.value.Keys == j.fields.Keys
                        && forall n :: n in r.value ==> Some(r.value[n]) == ToScalar(j.fields[n])
  {
    if j.Object? && forall n | n in j.fields :: ToScalar(j.fields[n]).Some?
    then Some(map n | n in j.fields :: ToScalar(j.fields[n]).value)
    else None
  }

  /** The scalars of JSON are its booleans, integers and fractions, each kept as what it is. */
  lemma ScalarIff(j: Json, s: Scalar)
    ensures ToScalar(j) == Some(s) <==>
            (s.Bool? && j == Flag(s.b)) || (s.Int? && j == Whole(s.i)) || (s.Real? && j == Fraction(s.r))
    ensures ToScalar(j).None? <==> !(j.Flag? || j.Whole? || j.Fraction?)
  {}
}
