/** Modbus reads: decoding 16-bit register words, and one session of several reads. */
module Modbus {

  import opened Wrappers

  const MAX_WORDS := 125
  const MAX_OPERATIONS := 32
  const WORD := 0x1_0000
  const DOUBLE_WORD := 0x1_0000_0000

  // ---------- words and integers ----------

  /** A word as `& 0xFFFF` leaves it. */
  function Low(w: int): nat {
    w % WORD
  }

  function Joined(hi: int, lo: int): (u: nat)
    ensures u < DOUBLE_WORD
  {
    Low(hi) * WORD + Low(lo)
  }

  /** Two's complement reading of a pattern below `modulus`. */
  function Signed(u: int, modulus: int): int {
    if u < modulus / 2 then u else u - modulus
  }

  datatype Kind = Unread | UInt16 | Int16 | UInt32 | Int32 | Float32

  predicate Wide(k: Kind) {
    k.UInt32? || k.Int32? || k.Float32?
  }

  // ---------- binary32 ----------

  /** The value of a bit pattern (section 3.4 of IEEE 754-2019). */
  datatype Single = Finite(x: real) | Infinite(negative: bool) | NotANumber

  function Pow2(n: nat): (p: nat)
    ensures p >= 1
  {
    if n == 0 then 1 else 2 * Pow2(n - 1)
  }

  const SIGN := 0x8000_0000
  const HIDDEN := 0x80_0000
  const BIAS_SCALE := 149

  function Exponent(u: nat): nat {
    u / HIDDEN % 256
  }

  function Fraction(u: nat): nat {
    u % HIDDEN
  }

  /** The magnitude of a finite pattern in units of the smallest subnormal number. */
  function Units(u: nat): nat {
    if Exponent(u) == 0 then Fraction(u) else (HIDDEN + Fraction(u)) * Pow2(Exponent(u) - 1)
  }

  /** So many units of two to the minus `scale`. */
  function Shifted(units: nat, scale: nat): real {
    units as real / Pow2(scale) as real
  }

  function Magnitude(u: nat): real {
    Shifted(Units(u), BIAS_SCALE)
  }

  function ToSingle(u: nat): Single {
    if Exponent(u) == 255 then (if Fraction(u) == 0 then Infinite(u >= SIGN) else NotANumber)
    else Finite(if u >= SIGN then -Magnitude(u) else Magnitude(u))
  }

  // ---------- decoding ----------

  datatype Decoded = Integer(n: int) | Float(f: Single)

  datatype Problem = Exception | NoAnswer | NoWords | TooFewWords

  function Decode(words: seq<int>, k: Kind): Result<Option<Decoded>, Problem> {
    if k.Unread? then Ok(None)
    else if words == [] then Err(NoWords)
    else if Wide(k) && |words| < 2 then Err(TooFewWords)
    else if k.UInt16? then Ok(Some(Integer(Low(words[0]))))
    else if k.Int16? then Ok(Some(Integer(Signed(Low(words[0]), WORD))))
    else
      var u := Joined(words[0], words[1]);
      if k.UInt32? then Ok(Some(Integer(u)))
      else if k.Int32? then Ok(Some(Integer(Signed(u, DOUBLE_WORD))))
      else Ok(Some(Float(ToSingle(u))))
  }

  /** The words that hold an integer, most significant first. */
  function Encode16(n: int): seq<int> {
    [n % WORD]
  }

  function Encode32(n: int): seq<int> {
    [n / WORD % WORD, n % WORD]
  }

  lemma RemainderIs(n: int, quotient: int, remainder: int)
    requires n == quotient * DOUBLE_WORD + remainder && 0 <= remainder < DOUBLE_WORD
    ensures n % DOUBLE_WORD == remainder
  {}

  lemma JoinedOfEncode(n: int)
    ensures Joined(n / WORD % WORD, n % WORD) == n % DOUBLE_WORD
  {
    var q, r := n / WORD, n % WORD;
    var qq, qr := q / WORD, q % WORD;
    assert n == q * WORD + r && q == qq * WORD + qr;
    RemainderIs(n, qq, qr * WORD + r);
  }

  lemma DecodesWord(n: int)
    ensures 0 <= n < WORD ==> Decode(Encode16(n), UInt16) == Ok(Some(Integer(n)))
    ensures -WORD / 2 <= n < WORD / 2 ==> Decode(Encode16(n), Int16) == Ok(Some(Integer(n)))
  {}

  lemma DecodesWordPair(n: int)
    ensures Decode(Encode32(n), UInt32) == Ok(Some(Integer(n % DOUBLE_WORD)))
    ensures Decode(Encode32(n), Int32) == Ok(Some(Integer(Signed(n % DOUBLE_WORD, DOUBLE_WORD))))
  {
    JoinedOfEncode(n);
  }

  /** What words mean: the first is the more significant one, and signed kinds are two's complement. */
  lemma WordsMean(hi: int, lo: int, rest: seq<int>)
    requires 0 <= hi < 0x1_0000 && 0 <= lo < 0x1_0000
    ensures Decode([hi] + rest, UInt16) == Ok(Some(Integer(hi)))
    ensures Decode([hi] + rest, Int16) == Ok(Some(Integer(if hi < 0x8000 then hi else hi - 0x1_0000)))
    ensures Decode([hi, lo] + rest, UInt32) == Ok(Some(Integer(hi * 0x1_0000 + lo)))
    ensures Decode([hi, lo] + rest, Int32) ==
            Ok(Some(Integer(hi * 0x1_0000 + lo - if hi < 0x8000 then 0 else 0x1_0000_0000)))
    ensures Decode([hi, lo] + rest, Float32) == Ok(Some(Float(ToSingle(hi * 0x1_0000 + lo))))
  {}

  /** Decoding is inverse to encoding for every integer that fits the kind. */
  lemma DecodesEncoded(n: int)
    ensures 0 <= n < WORD ==> Decode(Encode16(n), UInt16) == Ok(Some(Integer(n)))
    ensures -WORD / 2 <= n < WORD / 2 ==> Decode(Encode16(n), Int16) == Ok(Some(Integer(n)))
    ensures 0 <= n < DOUBLE_WORD ==> Decode(Encode32(n), UInt32) == Ok(Some(Integer(n)))
    ensures -DOUBLE_WORD / 2 <= n < DOUBLE_WORD / 2 ==> Decode(Encode32(n), Int32) == Ok(Some(Integer(n)))
  {
    DecodesWord(n);
    DecodesWordPair(n);
    if n < 0 {
      assert -DOUBLE_WORD <= n ==> n % DOUBLE_WORD == n + DOUBLE_WORD;
    }
  }

  /** And encoding is inverse to decoding for every pair of words. */
  lemma EncodesDecoded(hi: int, lo: int)
    requires 0 <= hi < WORD && 0 <= lo < WORD
    ensures Encode32(Decode([hi, lo], UInt32).value.value.n) == [hi, lo]
    ensures Encode32(Decode([hi, lo], Int32).value.value.n) == [hi, lo]
    ensures Encode16(Decode([lo], Int16).value.value.n) == [lo]
  {
    var u := hi * WORD + lo;
    assert u / WORD == hi && u % WORD == lo;
    var s := u - DOUBLE_WORD;
    assert s == (hi - WORD) * WORD + lo;
    assert s / WORD == hi - WORD && s % WORD == lo;
    assert (hi - WORD) % WORD == hi;
  }

  // ---------- the value of floats ----------

  lemma {:induction false} Pow2Adds(a: nat, b: nat)
    ensures Pow2(a + b) == Pow2(a) * Pow2(b)
  {
    if a > 0 {
      Pow2Adds(a - 1, b);
      assert Pow2(a + b) == 2 * Pow2(a - 1 + b);
    }
  }

  const ONE_PATTERN := 0x3F80_0000

  lemma HiddenIsPower()
    ensures Pow2(23) == HIDDEN
  {
    assert Pow2(5) == 32 && Pow2(6) == 64;
    Pow2Adds(5, 6);
    Pow2Adds(11, 12);
  }

  lemma ScaleIsPower(n: nat)
    requires n + 23 == BIAS_SCALE
    ensures Pow2(BIAS_SCALE) == HIDDEN * Pow2(n)
  {
    HiddenIsPower();
    Pow2Adds(23, n);
  }

  lemma WholeRatio(units: nat, scale: nat)
    requires units == scale >= 1
    ensures units as real / scale as real == 1.0
  {}

  lemma OneAt(u: nat, e: nat)
    requires u == ONE_PATTERN && e == Exponent(u) - 1
    ensures ToSingle(u) == Finite(1.0)
  {
    ScaleIsPower(e);
    WholeRatio(Units(u), Pow2(BIAS_SCALE));
  }

  /** The pattern with the bias as exponent and no fraction is the number one. */
  lemma OneIsOne()
    ensures ToSingle(ONE_PATTERN) == Finite(1.0)
  {
    OneAt(ONE_PATTERN, 126);
  }

  /** One more in the exponent doubles a normal number; the first binade continues the subnormal numbers
      without a gap, with the same spacing. */
  lemma ExponentDoubles(u: nat)
    requires Exponent(u) < 254
    ensures Exponent(u) > 0 ==> Units(u + HIDDEN) == 2 * Units(u)
    ensures Exponent(u) == 0 ==> Units(u + HIDDEN) == HIDDEN + Units(u)
  {
    var e, f := Exponent(u), Fraction(u);
    NextExponent(u);
    if e == 0 {
      assert Pow2(0) == 1;
    } else {
      TwiceProduct(HIDDEN + f, Pow2(e - 1), Pow2(e));
    }
  }

  lemma NextExponent(u: nat)
    requires Exponent(u) < 255
    ensures Exponent(u + HIDDEN) == Exponent(u) + 1 && Fraction(u + HIDDEN) == Fraction(u)
  {
    assert (u + HIDDEN) / HIDDEN == u / HIDDEN + 1;
  }

  lemma TwiceProduct(a: nat, p: nat, q: nat)
    requires q == 2 * p
    ensures a * q == 2 * (a * p)
  {}

  /** Two to the power of any integer. */
  function TwoTo(k: int): (x: real)
    ensures x > 0.0
    decreases if k < 0 then -k else k
  {
    if k == 0 then 1.0 else if k > 0 then 2.0 * TwoTo(k - 1) else TwoTo(k + 1) / 2.0
  }

  lemma {:induction false} RealProduct(a: nat, b: nat)
    ensures (a * b) as real == a as real * b as real
  {
    if a > 0 {
      RealProduct(a - 1, b);
      assert a * b == (a - 1) * b + b;
      assert a as real * b as real == (a as real - 1.0) * b as real + b as real;
    }
  }

  lemma BothDoubled(p: real, t: real, q: real, p2: real, t2: real)
    requires p == t * q && p2 == 2.0 * p && t2 == 2.0 * t
    ensures p2 == t2 * q
  {}

  lemma HalfAndDouble(t: real, q: real, t2: real, q2: real)
    requires 1.0 == t * q && t2 == t / 2.0 && q2 == 2.0 * q
    ensures 1.0 == t2 * q2
  {
    assert t2 * q2 == t / 2.0 * 2.0 * q;
  }

  lemma {:induction false} PowerFromZero(j: nat) returns (t: real, q: real)
    ensures t == TwoTo(0 - j) && q == Pow2(j) as real && 1.0 == t * q
  {
    t, q := TwoTo(0 - j), Pow2(j) as real;
    if j > 0 {
      var t0, q0 := PowerFromZero(j - 1);
      assert t == t0 / 2.0 && q == 2.0 * q0;
      HalfAndDouble(t0, q0, t, q);
    }
  }

  lemma TwoToMore(k: int)
    ensures TwoTo(k + 1) == 2.0 * TwoTo(k)
  {}

  /** Powers of two as products with powers of any difference. */
  lemma {:induction false} PowerFrom(i: nat, j: nat) returns (p: real, t: real, q: real)
    ensures p == Pow2(i) as real && t == TwoTo(i - j) && q == Pow2(j) as real && p == t * q && q > 0.0
  {
    p, t, q := Pow2(i) as real, TwoTo(i - j), Pow2(j) as real;
    if i == 0 {
      var t0, q0 := PowerFromZero(j);
    } else {
      var p0, t0, q0 := PowerFrom(i - 1, j);
      TwoToMore(i - 1 - j);
      assert p == 2.0 * p0 && t == 2.0 * t0;
      BothDoubled(p0, t0, q, p, t);
    }
  }

  /** A product of quotients, multiplied out. */
  lemma MultipliedOut(a: real, h: real, t: real, q: real) returns (x: real)
    requires h > 0.0
    ensures x == a / h * t && x * (h * q) == a * (t * q)
  {
    var y := a / h;
    assert y * h == a;
    x := y * t;
    assert x * (h * q) == y * h * (t * q);
  }

  lemma QuotientIs(p: real, t: real, q: real)
    requires p == t * q && q > 0.0
    ensures p / q == t
  {}

  /** So many units of the hidden bit times a power of two, in the smallest units. */
  lemma ScaledUnits(units: nat, p: nat, whole: nat, low: nat, scale: nat, power: nat) returns (x: real, t: real)
    requires scale == low + 23 && p == Pow2(power) && whole == units * p
    ensures t == TwoTo(power - low) && x == units as real / 8388608.0 * t
    ensures x * Pow2(scale) as real == whole as real
  {
    HiddenIsPower();
    Pow2Adds(23, low);
    var pr, q;
    pr, t, q := PowerFrom(power, low);
    RealProduct(units, p);
    RealProduct(HIDDEN, Pow2(low));
    x := MultipliedOut(units as real, 8388608.0, t, q);
  }

  lemma ScaledIs(units: nat, scale: nat, x: real)
    requires x * Pow2(scale) as real == units as real
    ensures Shifted(units, scale) == x
  {
    QuotientIs(units as real, x, Pow2(scale) as real);
  }

  lemma Significand(units: nat, leading: bool, f: nat, t: real, x: real)
    requires units == (if leading then HIDDEN else 0) + f && x == units as real / 8388608.0 * t
    ensures x == ((if leading then 1.0 else 0.0) + f as real / 8388608.0) * t
  {
    assert units as real / 8388608.0 == (if leading then 1.0 else 0.0) + f as real / 8388608.0;
  }

  lemma PartsOf(u: nat) returns (units: nat, power: nat, p: nat)
    ensures units == (if Exponent(u) == 0 then 0 else HIDDEN) + Fraction(u)
    ensures power == (if Exponent(u) == 0 then 1 else Exponent(u)) - 1
    ensures p == Pow2(power) && Units(u) == units * p
  {
    units := (if Exponent(u) == 0 then 0 else HIDDEN) + Fraction(u);
    power := (if Exponent(u) == 0 then 1 else Exponent(u)) - 1;
    p := Pow2(power);
    assert Pow2(0) == 1;
  }

  lemma SingleIs(u: nat)
    requires u < SIGN && Exponent(u) < 255
    ensures ToSingle(u) == Finite(Shifted(Units(u), BIAS_SCALE))
  {}

  lemma MagnitudeIs(u: nat, low: nat, scale: nat) returns (units: nat, x: real, t: real)
    requires scale == low + 23
    ensures units == (if Exponent(u) == 0 then 0 else HIDDEN) + Fraction(u)
    ensures t == TwoTo((if Exponent(u) == 0 then 1 else Exponent(u)) - 1 - low)
    ensures x == Shifted(Units(u), scale) && x == units as real / 8388608.0 * t
  {
    var power, p;
    units, power, p := PartsOf(u);
    x, t := ScaledUnits(units, p, Units(u), low, scale, power);
    ScaledIs(Units(u), scale, x);
  }

  lemma FormulaAt(u: nat, low: nat, scale: nat, k: int) returns (x: real)
    requires scale == low + 23 && k == (if Exponent(u) == 0 then 1 else Exponent(u)) - 1 - low
    ensures x == Shifted(Units(u), scale)
    ensures x == ((if Exponent(u) == 0 then 0.0 else 1.0) + Fraction(u) as real / 8388608.0) * TwoTo(k)
  {
    var units, t;
    units, x, t := MagnitudeIs(u, low, scale);
    Significand(units, Exponent(u) != 0, Fraction(u), t, x);
  }

  /** What the bits of a pattern without the sign bit mean: eight bits of biased exponent and 23 of fraction
      behind a leading one, which subnormal numbers lack; the highest exponent stands for infinity and for no
      number. */
  lemma FloatFormula(u: nat)
    requires u < 0x8000_0000
    ensures var e, f := u / 0x80_0000, u % 0x80_0000;
            var leading, power := if e == 0 then 0.0 else 1.0, if e == 0 then 1 else e;
            ToSingle(u) ==
            if e == 255 then (if f == 0 then Infinite(false) else NotANumber)
            else Finite((leading + f as real / 8388608.0) * TwoTo(power - 127))
  {
    var e := u / HIDDEN;
    assert 0 <= e < 256 && Exponent(u) == e;
    if e < 255 {
      var x := FormulaAt(u, 126, BIAS_SCALE, (if e == 0 then 1 else e) - 127);
      SingleIs(u);
    }
  }

  lemma ScaledTwice(a: nat, b: nat, scale: nat)
    requires b == 2 * a
    ensures Shifted(b, scale) == 2.0 * Shifted(a, scale)
  {}

  /** Doubling is one more in the exponent. */
  lemma FloatDoubles(u: nat)
    requires 0 < Exponent(u) < 254 && u < SIGN
    ensures ToSingle(u).Finite? && ToSingle(u + 0x80_0000) == Finite(2.0 * ToSingle(u).x)
  {
    ExponentDoubles(u);
    NextExponent(u);
    assert u + HIDDEN < SIGN by {
      assert u / HIDDEN < 254;
    }
    SingleIs(u);
    SingleIs(u + HIDDEN);
    ScaledTwice(Units(u), Units(u + HIDDEN), BIAS_SCALE);
  }

  lemma UnitSteps(u: nat)
    requires u + 1 < SIGN && Exponent(u + 1) < 255
    ensures var e := Exponent(u); Units(u + 1) == Units(u) + Pow2(if e == 0 then 0 else e - 1)
  {
    var e, f := Exponent(u), Fraction(u);
    assert u == u / HIDDEN * HIDDEN + f && u / HIDDEN < 256;
    if f + 1 < HIDDEN {
      assert (u + 1) / HIDDEN == u / HIDDEN && (u + 1) % HIDDEN == f + 1;
      assert e > 0 ==> (HIDDEN + f + 1) * Pow2(e - 1) == (HIDDEN + f) * Pow2(e - 1) + Pow2(e - 1);
    } else {
      assert u + 1 == (u / HIDDEN + 1) * HIDDEN;
      assert (u + 1) / HIDDEN == u / HIDDEN + 1 && (u + 1) % HIDDEN == 0;
      assert e > 0 ==> HIDDEN * Pow2(e) == (HIDDEN + f) * Pow2(e - 1) + Pow2(e - 1);
    }
  }

  lemma PowerQuotient(i: nat, j: nat)
    ensures Shifted(Pow2(i), j) == TwoTo(i - j)
  {
    var p, t, q := PowerFrom(i, j);
    QuotientIs(p, t, q);
  }

  lemma ScaledSum(a: nat, b: nat, scale: nat)
    ensures Shifted(a + b, scale) - Shifted(a, scale) == Shifted(b, scale)
  {}

  lemma SpacingAt(u: nat, scale: nat)
    requires u + 1 < SIGN && Exponent(u + 1) < 255
    ensures Shifted(Units(u + 1), scale) - Shifted(Units(u), scale) ==
            TwoTo((if Exponent(u) == 0 then 1 else Exponent(u)) - 1 - scale)
  {
    var power := if Exponent(u) == 0 then 0 else Exponent(u) - 1;
    UnitSteps(u);
    ScaledSum(Units(u), Pow2(power), scale);
    PowerQuotient(power, scale);
  }

  /** Consecutive patterns of one exponent are equally spaced, and so is the step to the next exponent; the
      subnormal numbers are as far apart as those of the first exponent. */
  lemma FloatSpacing(u: nat)
    requires u + 1 < SIGN && Exponent(u + 1) < 255
    ensures ToSingle(u).Finite? && ToSingle(u + 1).Finite?
    ensures var e := Exponent(u);
            ToSingle(u + 1).x - ToSingle(u).x == TwoTo((if e == 0 then 1 else e) - 150)
  {
    ExponentOrder(u, u + 1);
    SingleIs(u);
    SingleIs(u + 1);
    SpacingAt(u, BIAS_SCALE);
  }

  // ---------- the order of floats ----------

  lemma {:induction false} Pow2Grows(a: nat, b: nat)
    requires a <= b
    ensures Pow2(a) <= Pow2(b)
  {
    if a < b {
      Pow2Grows(a, b - 1);
    }
  }

  lemma ProductGrows(a: nat, b: nat, c: nat, d: nat)
    requires a <= b && c <= d
    ensures a * c <= b * d
  {
    assert a * c <= b * c;
    assert b * c <= b * d;
  }

  lemma ProductGrowsStrictly(a: nat, b: nat, c: nat)
    requires a < b && c >= 1
    ensures a * c < b * c
  {}

  /** A larger exponent outweighs any fraction. */
  lemma ExponentDominates(u: nat, v: nat)
    requires Exponent(u) < Exponent(v)
    ensures Units(u) < Units(v)
  {
    var e, f := Exponent(u), Exponent(v);
    ProductGrows(HIDDEN, HIDDEN + Fraction(v), Pow2(f - 1), Pow2(f - 1));
    if e == 0 {
      ProductGrows(HIDDEN, HIDDEN, 1, Pow2(f - 1));
    } else {
      Pow2Grows(e, f - 1);
      ProductGrowsStrictly(HIDDEN + Fraction(u), 2 * HIDDEN, Pow2(e - 1));
      assert Pow2(e) == 2 * Pow2(e - 1);
      assert 2 * HIDDEN * Pow2(e - 1) == HIDDEN * Pow2(e);
      ProductGrows(HIDDEN, HIDDEN, Pow2(e), Pow2(f - 1));
    }
  }

  lemma UnitsGrow(u: nat, v: nat)
    requires u < v < SIGN
    ensures Units(u) < Units(v)
  {
    assert u == (u / HIDDEN) * HIDDEN + Fraction(u);
    assert v == (v / HIDDEN) * HIDDEN + Fraction(v);
    assert u / HIDDEN <= v / HIDDEN < 256;
    if Exponent(u) < Exponent(v) {
      ExponentDominates(u, v);
    } else if Exponent(u) > 0 {
      ProductGrowsStrictly(HIDDEN + Fraction(u), HIDDEN + Fraction(v), Pow2(Exponent(u) - 1));
    }
  }

  lemma QuotientsGrow(a: nat, b: nat, c: nat)
    requires c >= 1 && a < b
    ensures 0.0 <= a as real / c as real < b as real / c as real
  {
    var x, y := a as real / c as real, b as real / c as real;
    assert x * c as real == a as real && y * c as real == b as real;
    assert y <= x ==> y * c as real <= x * c as real;
  }

  lemma ExponentOrder(u: nat, v: nat)
    requires u < v < SIGN
    ensures Exponent(u) <= Exponent(v)
  {
    assert u / HIDDEN <= v / HIDDEN < 256;
  }

  /** On non-negative finite patterns the decoded float is strictly monotone in the decoded integer. */
  lemma FloatsGrow(u: nat, v: nat)
    requires u < v && Exponent(v) < 255 && v < SIGN
    ensures ToSingle(u).Finite? && ToSingle(v).Finite? && 0.0 <= ToSingle(u).x < ToSingle(v).x
  {
    ExponentOrder(u, v);
    UnitsGrow(u, v);
    QuotientsGrow(Units(u), Units(v), Pow2(BIAS_SCALE));
  }

  /** The top bit is the sign: patterns that differ in it only decode to opposite values. */
  lemma SignFlips(u: nat)
    requires u < SIGN
    ensures match ToSingle(u)
            case Finite(x) => ToSingle(u + SIGN) == Finite(-x)
            case Infinite(_) => ToSingle(u) == Infinite(false) && ToSingle(u + SIGN) == Infinite(true)
            case NotANumber => ToSingle(u + SIGN) == NotANumber
  {
    assert (u + SIGN) / HIDDEN == u / HIDDEN + 256;
    assert Exponent(u + SIGN) == Exponent(u) && Fraction(u + SIGN) == Fraction(u);
  }

  /** No pattern decodes below zero without the sign bit, and only the zero pattern decodes to zero. */
  lemma PatternSign(u: nat)
    requires u < SIGN && Exponent(u) < 255
    ensures ToSingle(u).Finite? && ToSingle(u).x >= 0.0 && (ToSingle(u).x == 0.0 <==> u == 0)
  {
    assert Magnitude(0) == 0.0;
    if 0 < u {
      FloatsGrow(0, u);
    }
  }

  /** Two finite patterns decode to the same float only if they are equal or both are zeros. */
  lemma FloatsSeparate(u: nat, v: nat)
    requires u < SIGN && v < SIGN && Exponent(u) < 255 && Exponent(v) < 255
    ensures ToSingle(u) == ToSingle(v) <==> u == v
    ensures ToSingle(u) == ToSingle(v + SIGN) <==> u == v == 0
  {
    if u < v {
      FloatsGrow(u, v);
    }
    if v < u {
      FloatsGrow(v, u);
    }
    OppositeSigns(u, v);
  }

  lemma OppositeSigns(u: nat, v: nat)
    requires u < SIGN && v < SIGN && Exponent(u) < 255 && Exponent(v) < 255
    ensures ToSingle(u) == ToSingle(v + SIGN) <==> u == v == 0
  {
    SignFlips(v);
    PatternSign(u);
    PatternSign(v);
    var x, y := ToSingle(u).x, ToSingle(v).x;
    assert ToSingle(v + SIGN) == Finite(-y);
    assert x == -y <==> x == 0.0 && y == 0.0;
  }

  // ---------- one session ----------

  datatype Function = Holding | Input | Unsupported

  datatype Spec = Spec(
    address: int, count: int, register: Function, kind: Kind,
    scale: Option<real>, offset: Option<real>, tag: Option<string>)

  /** What the client library answers: words, nothing (False or None), or an exception. */
  datatype Reply = Words(words: seq<int>) | Silence | Thrown

  type Client = (nat, Function, int, int) -> Reply

  /** A decoded value, scaled when a scale or an offset is given; scaling a float that is not finite is not
      followed further. */
  datatype Reported = Plain(value: Decoded) | Scaled(x: real) | ScaledNotFinite

  datatype Reading = Reading(
    address: int, register: Function, count: int, success: bool, words: Option<seq<int>>,
    decoded: Option<Reported>, tag: Option<string>, error: Option<Problem>)

  datatype Refusal = TooManyOperations | BadCount(count: int) | CountTooSmall(kind: Kind, count: int)

  function Apply(d: Decoded, scale: Option<real>, offset: Option<real>): Reported {
    if scale.None? && offset.None? then Plain(d)
    else if d.Float? && !d.f.Finite? then ScaledNotFinite
    else
      var x := if d.Integer? then d.n as real else d.f.x;
      var y := if scale.Some? then x * scale.value else x;
      Scaled(if offset.Some? then y + offset.value else y)
  }

  /** Scaling comes before the offset; a missing scale is 1 and a missing offset 0, and without either the value
      is reported as it is. */
  lemma ScaleThenOffset(d: Decoded, scale: Option<real>, offset: Option<real>)
    ensures scale.None? && offset.None? ==> Apply(d, scale, offset) == Plain(d)
    ensures (scale.Some? || offset.Some?) && (d.Integer? || d.f.Finite?) ==>
              var x := if d.Integer? then d.n as real else d.f.x;
              var factor := if scale.Some? then scale.value else 1.0;
              var shift := if offset.Some? then offset.value else 0.0;
              Apply(d, scale, offset) == Scaled(x * factor + shift)
  {}

  function Check(s: Spec): Option<Refusal> {
    if s.count < 1 || s.count > MAX_WORDS then Some(BadCount(s.count))
    else if Wide(s.kind) && s.count < 2 then Some(CountTooSmall(s.kind, s.count))
    else None
  }

  /** Which specs are refused, and why. */
  lemma CheckIff(s: Spec)
    ensures Check(s).None? <==> 1 <= s.count <= 125 && (s.kind in {UInt32, Int32, Float32} ==> s.count >= 2)
    ensures Check(s).Some? ==>
              Check(s).value == if 1 <= s.count <= 125 then CountTooSmall(s.kind, s.count) else BadCount(s.count)
  {}

  function Truncated(words: seq<int>): (t: seq<int>)
    ensures |t| == |words| && forall i :: 0 <= i < |t| ==> 0 <= t[i] < WORD
  {
    seq(|words|, i requires 0 <= i < |words| => Low(words[i]))
  }

  function Failure(s: Spec, problem: Problem): Reading {
    Reading(s.address, s.register, s.count, false, None, None, s.tag, Some(problem))
  }

  function Interpret(s: Spec, reply: Reply): Reading {
    match reply
    case Thrown => Failure(s, Exception)
    case Silence => Failure(s, NoAnswer)
    case Words(words) =>
      var t := Truncated(words);
      match Decode(t, s.kind)
      case Err(problem) => Reading(s.address, s.register, s.count, true, Some(t), None, s.tag, Some(problem))
      case Ok(None) => Reading(s.address, s.register, s.count, true, Some(t), None, s.tag, None)
      case Ok(Some(d)) =>
        Reading(s.address, s.register, s.count, true, Some(t), Some(Apply(d, s.scale, s.offset)), s.tag, None)
  }

  /** An unsupported function raises inside the read and so becomes a failed reading. */
  function ReplyTo(s: Spec, client: Client, i: nat): Reply {
    if s.register.Unsupported? then Thrown else client(i, s.register, s.address, s.count)
  }

  /** Every reading belongs to its register spec, and succeeds exactly when words came back; those are
      reported as words. */
  lemma ReadingBelongs(s: Spec, reply: Reply)
    ensures var r := Interpret(s, reply);
            && r.address == s.address && r.register == s.register && r.count == s.count && r.tag == s.tag
            && (r.success <==> reply.Words?) && (r.success <==> r.words.Some?)
            && (reply.Words? ==>
                  && |r.words.value| == |reply.words|
                  && (forall j :: 0 <= j < |reply.words| ==>
                        0 <= r.words.value[j] < WORD && (reply.words[j] - r.words.value[j]) % WORD == 0))
  {}

  /** A successful reading carries an error exactly when the device sent fewer words than the kind needs, and
      is decoded otherwise. In particular a device that sends what was asked for is always decoded. */
  lemma ReadingErrors(s: Spec, reply: Reply)
    ensures var r := Interpret(s, reply);
            && (r.error.None? <==>
                && reply.Words? && (s.kind in {UInt16, Int16} ==> |reply.words| >= 1)
                && (s.kind in {UInt32, Int32, Float32} ==> |reply.words| >= 2))
            && (r.decoded.Some? <==> r.error.None? && !s.kind.Unread?)
            && (Check(s).None? && reply.Words? && |reply.words| == s.count ==> r.error.None?)
  {}

  /** What is reported of the words that came back: their decoded value, scaled, or the reason why not. */
  lemma ReadingSays(s: Spec, words: seq<int>)
    ensures var r := Interpret(s, Words(words));
            && r.error == (if s.kind.Unread? || (words != [] && (Wide(s.kind) ==> |words| >= 2)) then None
                           else Some(if words == [] then NoWords else TooFewWords))
            && (r.decoded.Some? ==>
                  && Decode(words, s.kind).Ok? && Decode(words, s.kind).value.Some?
                  && r.decoded.value == Apply(Decode(words, s.kind).value.value, s.scale, s.offset))
    ensures Interpret(s, Silence).error == Some(NoAnswer) && Interpret(s, Thrown).error == Some(Exception)
    ensures s.register.Unsupported? ==> forall client: Client, i :: ReplyTo(s, client, i) == Thrown
    ensures !s.register.Unsupported? ==>
              forall client: Client, i :: ReplyTo(s, client, i) == client(i, s.register, s.address, s.count)
  {
    LowTwice(words);
  }

  lemma LowTwice(words: seq<int>)
    ensures forall k :: Decode(Truncated(words), k) == Decode(words, k)
  {
    var t := Truncated(words);
    assert forall i :: 0 <= i < |words| ==> Low(t[i]) == Low(words[i]);
  }

  /** One session. A bad register spec aborts it; a failed read does not. */
  method ReadRegisters(specs: seq<Spec>, client: Client) returns (result: Result<seq<Reading>, Refusal>)
    ensures result.Ok? <==> |specs| <= 32 && forall i :: 0 <= i < |specs| ==> Check(specs[i]).None?
    ensures result.Ok? ==>
              |result.value| == |specs|
              && forall i :: 0 <= i < |specs| ==>
                   result.value[i] == Interpret(specs[i], ReplyTo(specs[i], client, i))
    ensures |specs| > 32 ==> result == Err(TooManyOperations)
    ensures result.Err? && |specs| <= 32 ==>
              exists i :: 0 <= i < |specs| && Check(specs[i]) == Some(result.error)
                && forall j :: 0 <= j < i ==> Check(specs[j]).None?
  {
    if |specs| > MAX_OPERATIONS {
      return Err(TooManyOperations);
    }
    var readings: seq<Reading> := [];
    for i := 0 to |specs|
      invariant |readings| == i
      invariant forall j :: 0 <= j < i ==> Check(specs[j]).None?
      invariant forall j :: 0 <= j < i ==> readings[j] == Interpret(specs[j], ReplyTo(specs[j], client, j))
    {
      var refusal := Check(specs[i]);
      if refusal.Some? {
        return Err(refusal.value);
      }
      readings := readings + [Interpret(specs[i], ReplyTo(specs[i], client, i))];
    }
    result := Ok(readings);
  }
}
