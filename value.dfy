/** The plist value: a closed tagged union of eight alternatives, and the
    operations that only read it (type queries, coercing accessors, the
    const subscripts, `hasMember`, `isEmpty`, `getSize`). */
module PlistValue {

  /** `std::int64_t`, the payload of an Integer. */
  newtype int64 = x: int | -0x8000_0000_0000_0000 <= x < 0x8000_0000_0000_0000

  /** `std::byte`, an element of a Data blob. */
  newtype byte = x: int | 0 <= x < 0x100

  /** The 64 bits of a `double`, read as an unsigned number. */
  newtype uint64 = x: int | 0 <= x < 0x1_0000_0000_0000_0000

  /** A `double`, kept as its IEEE 754 binary64 bit pattern: bit 63 the
      sign, bits 62..52 the biased exponent, bits 51..0 the fraction. */
  datatype Double = Double(bits: uint64)

  /** A `std::chrono::system_clock::time_point`, kept opaque. */
  datatype TimePoint = TimePoint(ticks: int64)

  /** The alternatives of the variant, in declaration order. A Dictionary is
      a map from keys to values, visited in ascending key order (module
      KeyOrder); an Array is a sequence. */
  datatype Value =
    | Dictionary(entries: map<string, Value>)
    | Array(elements: seq<Value>)
    | String(str: string)
    | Real(number: Double)
    | Integer(integer: int64)
    | Boolean(boolean: bool)
    | Data(bytes: seq<byte>)
    | Date(date: TimePoint)

  /** A Date occurs somewhere in the tree. Neither encoder can render a
      Date. */
  predicate ContainsDate(v: Value)
  {
    match v
    case Dictionary(m) => exists k | k in m :: ContainsDate(m[k])
    case Array(a) => exists i | 0 <= i < |a| :: ContainsDate(a[i])
    case Date(_) => true
    case _ => false
  }

  /** A default-constructed value holds the first alternative: an empty
      Dictionary. */
  const Default: Value := Dictionary(map[])

  /** `TypeError` for an operation on the wrong alternative, `RangeError`
      for a missing key or an index past the end in a const subscript,
      `UnsupportedError` for the encoder's refusal of a Date. */
  datatype Error = TypeError | RangeError | UnsupportedError

  datatype Result<T> = Ok(value: T) | Err(error: Error) {
    predicate IsFailure() {
      Err?
    }

    function PropagateFailure<U>(): Result<U>
      requires Err?
    {
      Err(error)
    }

    function Extract(): T
      requires Ok?
    {
      value
    }
  }

  datatype Option<T> = None | Some(value: T)

  /** The category `is<T>` asks about: `bool`, any floating-point type, any
      integral type other than `bool`, `std::string` or `const char*`, and
      the four container/blob types by exact type. */
  datatype Kind = DictionaryKind | ArrayKind | StringKind | RealKind
                | IntegerKind | BooleanKind | DataKind | DateKind

  function KindOf(v: Value): Kind
  {
    match v
    case Dictionary(_) => DictionaryKind
    case Array(_) => ArrayKind
    case String(_) => StringKind
    case Real(_) => RealKind
    case Integer(_) => IntegerKind
    case Boolean(_) => BooleanKind
    case Data(_) => DataKind
    case Date(_) => DateKind
  }

  /** `is<T>()`: true iff the active alternative is the one of category `k`. */
  predicate Is(v: Value, k: Kind)
  {
    KindOf(v) == k
  }

  // ---------------------------------------------------------------------
  // Parts of a binary64 bit pattern, used by the numeric coercions.

  /** `x * 2^n`. */
  function ShiftLeft(x: nat, n: nat): (r: nat)
    ensures x > 0 ==> r > 0
  {
    if n == 0 then x else 2 * ShiftLeft(x, n - 1)
  }

  /** `x / 2^n`, rounded down. */
  function ShiftRight(x: nat, n: nat): nat
  {
    if n == 0 then x else ShiftRight(x / 2, n - 1)
  }

  function SignBit(d: Double): (s: nat)
    ensures s <= 1
  {
    d.bits as nat / 0x8000_0000_0000_0000
  }

  function Exponent(d: Double): (e: nat)
    ensures e < 0x800
  {
    (d.bits as nat / 0x10_0000_0000_0000) % 0x800
  }

  function Fraction(d: Double): (f: nat)
    ensures f < 0x10_0000_0000_0000
  {
    d.bits as nat % 0x10_0000_0000_0000
  }

  /** `d == 0.0`: positive and negative zero. A NaN is not equal to zero. */
  predicate IsZero(d: Double)
  {
    Exponent(d) == 0 && Fraction(d) == 0
  }

  /** `static_cast<std::int64_t>(d)`: the value of `d` truncated toward
      zero, or None when the conversion is undefined behaviour (infinity,
      NaN, or a truncated value outside the range of `int64`). */
  function Truncate(d: Double): (r: Option<int64>)
    ensures Exponent(d) == 0x7FF ==> r == None
    ensures IsZero(d) ==> r == Some(0)
    ensures r.Some? && r.value != 0 ==> !IsZero(d)
    ensures r.Some? && SignBit(d) == 1 ==> r.value <= 0
    ensures r.Some? && SignBit(d) == 0 ==> r.value >= 0
  {
    var e := Exponent(d);
    if e == 0x7FF then None
    else if e < 1023 then Some(0)
    else
      var significand := 0x10_0000_0000_0000 + Fraction(d);
      var magnitude := if e >= 1075 then ShiftLeft(significand, e - 1075)
                       else ShiftRight(significand, 1075 - e);
      var t := if SignBit(d) == 1 then -magnitude else magnitude;
      if -0x8000_0000_0000_0000 <= t < 0x8000_0000_0000_0000 then Some(t as int64) else None
  }

  /** `2^n`. */
  function Pow2(n: nat): (r: nat)
    ensures r >= 1
  {
    if n == 0 then 1 else 2 * Pow2(n - 1)
  }

  /** The significand of a finite double as an integer: the fraction with
      the implicit leading 1 of a normal number, or the bare fraction of a
      subnormal one. */
  function Significand(d: Double): nat
  {
    if Exponent(d) == 0 then Fraction(d) else 0x10_0000_0000_0000 + Fraction(d)
  }

  /** A finite double's magnitude is exactly `Numerator(d) / Denominator(d)`:
      the significand times `2^(e - 1075)` for a biased exponent `e`, with a
      subnormal number read at `e = 1` (IEEE 754, section 3.4). */
  function Numerator(d: Double): nat
  {
    Significand(d) * Pow2(if Exponent(d) >= 1075 then Exponent(d) - 1075 else 0)
  }

  function Denominator(d: Double): nat
  {
    Pow2(if Exponent(d) == 0 then 1074 else if Exponent(d) < 1075 then 1075 - Exponent(d) else 0)
  }

  lemma {:induction false} ShiftLeftProduct(x: nat, n: nat)
    ensures ShiftLeft(x, n) == x * Pow2(n)
  {
    if n > 0 {
      ShiftLeftProduct(x, n - 1);
      assert 2 * (x * Pow2(n - 1)) == x * (2 * Pow2(n - 1));
    }
  }

  lemma Twice(m: nat, p: nat)
    ensures m * (2 * p) == 2 * (m * p)
  {
  }

  /** Shifting right by `n` divides by `2^n`, rounding down. */
  lemma {:induction false} ShiftRightFloor(x: nat, n: nat)
    ensures var m := ShiftRight(x, n); m * Pow2(n) <= x < (m + 1) * Pow2(n)
  {
    if n > 0 {
      var q := x / 2;
      var m := ShiftRight(q, n - 1);
      var p := Pow2(n - 1);
      assert ShiftRight(x, n) == m;
      assert Pow2(n) == 2 * p;
      ShiftRightFloor(q, n - 1);
      var lo, hi := m * p, (m + 1) * p;
      assert lo <= q < hi;
      Twice(m, p);
      Twice(m + 1, p);
      assert 2 * q <= x <= 2 * q + 1;
    }
  }

  lemma {:induction false} Pow2Add(a: nat, b: nat)
    ensures Pow2(a + b) == Pow2(a) * Pow2(b)
  {
    if a > 0 {
      Pow2Add(a - 1, b);
      Twice(Pow2(b), Pow2(a - 1));
    }
  }

  lemma Pow2Square(n: nat)
    ensures Pow2(n + n) == Pow2(n) * Pow2(n)
  {
    Pow2Add(n, n);
  }

  lemma Pow2At16()
    ensures Pow2(16) == 0x1_0000
  {
    assert Pow2(4) == 16;
    Pow2Square(4);
    Pow2Square(8);
  }

  lemma Pow2At48()
    ensures Pow2(48) == 0x1_0000_0000_0000
  {
    Pow2At16();
    Pow2Square(16);
    Pow2Add(32, 16);
  }

  /** `2^51`, `2^52` and `2^53`. */
  lemma Pow2Values()
    ensures Pow2(51) == 0x8_0000_0000_0000
    ensures Pow2(52) == 0x10_0000_0000_0000
    ensures Pow2(53) == 0x20_0000_0000_0000
  {
    Pow2At48();
    assert Pow2(49) == 2 * Pow2(48);
    assert Pow2(50) == 2 * Pow2(49);
    assert Pow2(51) == 2 * Pow2(50);
    assert Pow2(52) == 2 * Pow2(51);
    assert Pow2(53) == 2 * Pow2(52);
  }

  lemma Pow2Monotone(a: nat, b: nat)
    requires a <= b
    ensures Pow2(a) <= Pow2(b)
    decreases b
  {
    if a < b {
      Pow2Monotone(a, b - 1);
    }
  }

  lemma {:induction false} MulMonotone(a: nat, b: nat, c: nat)
    requires a <= b
    ensures a * c <= b * c
    decreases b - a
  {
    if a < b {
      MulMonotone(a, b - 1, c);
      assert b * c == (b - 1) * c + c;
    }
  }

  /** For `m` the floor of `num / den`: `m >= k` exactly when `num >= k * den`. */
  lemma FloorAtLeast(m: nat, num: nat, den: nat, k: nat)
    requires m * den <= num < (m + 1) * den
    ensures m >= k <==> num >= k * den
  {
    if m >= k {
      MulMonotone(k, m, den);
    } else {
      MulMonotone(m + 1, k, den);
    }
  }

  /** Below exponent 1023 a finite double has magnitude below 1. */
  lemma BelowOne(d: Double)
    requires Exponent(d) < 1023
    ensures Numerator(d) < Denominator(d)
  {
    Pow2Values();
    if Exponent(d) == 0 {
      Pow2Monotone(52, 1074);
    } else {
      Pow2Monotone(53, 1075 - Exponent(d));
    }
  }

  /** The signed truncation `Truncate` keeps when it fits in an `int64`. */
  function SignedTruncation(d: Double, m: nat): Option<int64>
  {
    var t: int := if SignBit(d) == 1 then -(m as int) else m;
    if -0x8000_0000_0000_0000 <= t < 0x8000_0000_0000_0000 then Some(t as int64) else None
  }

  lemma LargeMagnitude(d: Double) returns (m: nat)
    requires 1075 <= Exponent(d) < 0x7FF
    ensures m * Denominator(d) <= Numerator(d) < (m + 1) * Denominator(d)
    ensures Truncate(d) == SignedTruncation(d, m)
  {
    var e := Exponent(d);
    ShiftLeftProduct(Significand(d), e - 1075);
    m := ShiftLeft(Significand(d), e - 1075);
    assert Denominator(d) == 1;
    assert Numerator(d) == m;
  }

  lemma MiddleMagnitude(d: Double) returns (m: nat)
    requires 1023 <= Exponent(d) < 1075
    ensures m * Denominator(d) <= Numerator(d) < (m + 1) * Denominator(d)
    ensures Truncate(d) == SignedTruncation(d, m)
  {
    var e := Exponent(d);
    ShiftRightFloor(Significand(d), 1075 - e);
    m := ShiftRight(Significand(d), 1075 - e);
    assert Denominator(d) == Pow2(1075 - e);
    assert Numerator(d) == Significand(d);
  }

  /** The magnitude Truncate computes from the bits is the floor of
      `Numerator(d) / Denominator(d)`, and Truncate keeps it, signed, when it
      fits in an `int64`. */
  lemma TruncatedMagnitude(d: Double) returns (m: nat)
    requires Exponent(d) != 0x7FF
    ensures m * Denominator(d) <= Numerator(d) < (m + 1) * Denominator(d)
    ensures Truncate(d) == SignedTruncation(d, m)
  {
    var e := Exponent(d);
    if e < 1023 {
      BelowOne(d);
      m := 0;
    } else if e >= 1075 {
      m := LargeMagnitude(d);
    } else {
      m := MiddleMagnitude(d);
    }
  }

  /** Where Truncate gives a value, it is the magnitude of the double rounded
      toward zero, with the double's sign. It gives None for an infinity or a
      NaN, and for a finite double exactly when the rounded value lies
      outside `[-2^63, 2^63)`. */
  lemma TruncateTowardZero(d: Double)
    ensures Exponent(d) == 0x7FF ==> Truncate(d) == None
    ensures Truncate(d).Some? ==>
      var t := Truncate(d).value as int;
      var m := if t < 0 then -t else t;
      m * Denominator(d) <= Numerator(d) < (m + 1) * Denominator(d)
    ensures Exponent(d) != 0x7FF ==>
      (Truncate(d).None? <==>
       Numerator(d) >= (if SignBit(d) == 0 then 0x8000_0000_0000_0000 else 0x8000_0000_0000_0001) * Denominator(d))
  {
    if Exponent(d) != 0x7FF {
      var m := TruncatedMagnitude(d);
      var bound: nat := if SignBit(d) == 0 then 0x8000_0000_0000_0000 else 0x8000_0000_0000_0001;
      FloorAtLeast(m, Numerator(d), Denominator(d), bound);
    }
  }

  // ---------------------------------------------------------------------
  // Coercing accessors `as<T>()`.

  /** `as<bool>()`: the stored flag of a Boolean, `!= 0` of a Real or an
      Integer, and a TypeError for every other alternative. */
  function AsBool(v: Value): (r: Result<bool>)
    ensures r.Ok? <==> Is(v, BooleanKind) || Is(v, RealKind) || Is(v, IntegerKind)
    ensures r.Err? ==> r.error == TypeError
    ensures r == Ok(false) <==>
      v == Boolean(false) || v == Integer(0) || (v.Real? && IsZero(v.number))
  {
    match v
    case Boolean(b) => Ok(b)
    case Real(d) => Ok(!IsZero(d))
    case Integer(i) => Ok(i != 0)
    case _ => Err(TypeError)
  }

  /** `as<std::int64_t>()`: the truncated Real, the Integer itself, 1 or 0
      for a Boolean, and a TypeError for every other alternative. The
      conversion of a Real must be defined. */
  function AsInteger(v: Value): (r: Result<int64>)
    requires v.Real? ==> Truncate(v.number).Some?
    ensures r.Ok? <==> Is(v, BooleanKind) || Is(v, RealKind) || Is(v, IntegerKind)
    ensures r.Err? ==> r.error == TypeError
  {
    match v
    case Real(d) => Ok(Truncate(d).value)
    case Integer(i) => Ok(i)
    case Boolean(b) => Ok(if b then 1 else 0)
    case _ => Err(TypeError)
  }

  /** The two numeric coercions agree: they succeed on the same values, a
      non-zero integer reading is a true boolean reading, and apart from a
      Real with a fractional part (0.5 reads as 0 but as true) the boolean
      reading is exactly "the integer reading is not zero". */
  lemma CoercionsAgree(v: Value)
    requires v.Real? ==> Truncate(v.number).Some?
    ensures AsBool(v).Ok? <==> AsInteger(v).Ok?
    ensures AsInteger(v).Ok? && AsInteger(v).value != 0 ==> AsBool(v).value
    ensures AsBool(v).Ok? && !v.Real? ==> AsBool(v).value == (AsInteger(v).value != 0)
  {
  }

  function AsString(v: Value): (r: Result<string>)
    ensures r.Ok? <==> Is(v, StringKind)
    ensures r.Ok? ==> v == String(r.value)
    ensures r.Err? ==> r.error == TypeError
  {
    if v.String? then Ok(v.str) else Err(TypeError)
  }

  function AsDictionary(v: Value): (r: Result<map<string, Value>>)
    ensures r.Ok? <==> Is(v, DictionaryKind)
    ensures r.Ok? ==> v == Dictionary(r.value)
    ensures r.Err? ==> r.error == TypeError
  {
    if v.Dictionary? then Ok(v.entries) else Err(TypeError)
  }

  function AsArray(v: Value): (r: Result<seq<Value>>)
    ensures r.Ok? <==> Is(v, ArrayKind)
    ensures r.Ok? ==> v == Array(r.value)
    ensures r.Err? ==> r.error == TypeError
  {
    if v.Array? then Ok(v.elements) else Err(TypeError)
  }

  function AsData(v: Value): (r: Result<seq<byte>>)
    ensures r.Ok? <==> Is(v, DataKind)
    ensures r.Ok? ==> v == Data(r.value)
    ensures r.Err? ==> r.error == TypeError
  {
    if v.Data? then Ok(v.bytes) else Err(TypeError)
  }

  function AsDate(v: Value): (r: Result<TimePoint>)
    ensures r.Ok? <==> Is(v, DateKind)
    ensures r.Ok? ==> v == Date(r.value)
    ensures r.Err? ==> r.error == TypeError
  {
    if v.Date? then Ok(v.date) else Err(TypeError)
  }

  // ---------------------------------------------------------------------
  // Read-only container access.

  /** `hasMember(key)`. */
  function HasMember(v: Value, key: string): (r: Result<bool>)
    ensures r.Ok? <==> Is(v, DictionaryKind)
    ensures r.Ok? ==> (r.value <==> key in v.entries)
    ensures r.Err? ==> r.error == TypeError
  {
    match v
    case Dictionary(m) => Ok(key in m)
    case _ => Err(TypeError)
  }

  /** The const `operator[](key)`: the stored entry, a RangeError for a
      missing key, a TypeError for anything but a Dictionary. */
  function MemberAt(v: Value, key: string): (r: Result<Value>)
    ensures r.Ok? ==> v.Dictionary? && key in v.entries && r.value == v.entries[key]
    ensures r == Err(RangeError) <==> v.Dictionary? && key !in v.entries
    ensures r == Err(TypeError) <==> !v.Dictionary?
    ensures v.Dictionary? && key in v.entries ==> r == Ok(v.entries[key])
  {
    match v
    case Dictionary(m) => if key in m then Ok(m[key]) else Err(RangeError)
    case _ => Err(TypeError)
  }

  /** `getSize()`. */
  function GetSize(v: Value): (r: Result<nat>)
    ensures r.Ok? <==> Is(v, ArrayKind)
    ensures r.Ok? ==> r.value == |v.elements|
    ensures r.Err? ==> r.error == TypeError
  {
    match v
    case Array(a) => Ok(|a|)
    case _ => Err(TypeError)
  }

  /** `isEmpty()`. */
  function IsEmpty(v: Value): (r: Result<bool>)
    ensures r.Ok? <==> Is(v, ArrayKind)
    ensures r.Ok? ==> (r.value <==> |v.elements| == 0)
    ensures r.Err? ==> r.error == TypeError
  {
    match v
    case Array(a) => Ok(a == [])
    case _ => Err(TypeError)
  }

  /** The const `operator[](index)`: the element, a RangeError for an index
      at or past the end, a TypeError for anything but an Array. */
  function ElementAt(v: Value, index: nat): (r: Result<Value>)
    ensures r.Ok? ==> v.Array? && index < |v.elements| && r.value == v.elements[index]
    ensures r == Err(TypeError) <==> !v.Array?
  {
    match v
    case Array(a) => if index < |a| then Ok(a[index]) else Err(RangeError)
    case _ => Err(TypeError)
  }

  /** The const key subscript succeeds exactly on the keys `hasMember`
      reports, and fails with RangeError exactly on the others. */
  lemma MemberAtAgreesWithHasMember(v: Value, key: string)
    ensures MemberAt(v, key).Ok? <==> HasMember(v, key) == Ok(true)
    ensures MemberAt(v, key) == Err(RangeError) <==> HasMember(v, key) == Ok(false)
    ensures MemberAt(v, key).Err? && HasMember(v, key).Err? ==> MemberAt(v, key).error == HasMember(v, key).error
  {
  }

  /** The const index subscript raises RangeError iff `index >= getSize()`. */
  lemma ElementAtRange(v: Value, index: nat)
    ensures ElementAt(v, index) == Err(RangeError) <==> GetSize(v).Ok? && index >= GetSize(v).value
    ensures ElementAt(v, index).Ok? <==> GetSize(v).Ok? && index < GetSize(v).value
  {
  }

  /** `isEmpty()` is `getSize() == 0`, with the same failure. */
  lemma IsEmptyIsSizeZero(v: Value)
    ensures IsEmpty(v).Ok? <==> GetSize(v).Ok?
    ensures IsEmpty(v).Ok? ==> IsEmpty(v).value == (GetSize(v).value == 0)
  {
  }

  // ---------------------------------------------------------------------
  // Construct, then read back.

  /** A value built from a bool, an integer or a double reads back through
      the numeric coercions: the flag itself, the integer itself, 1 or 0 for
      a flag, "not zero" for a number, and the truncation of a double. */
  lemma NumericReadBack(b: bool, i: int64, d: Double)
    ensures Is(Boolean(b), BooleanKind) && Is(Integer(i), IntegerKind) && Is(Real(d), RealKind)
    ensures AsBool(Boolean(b)) == Ok(b)
    ensures AsInteger(Boolean(b)) == Ok(if b then 1 else 0)
    ensures AsInteger(Integer(i)) == Ok(i)
    ensures AsBool(Integer(i)) == Ok(i != 0)
    ensures AsBool(Real(d)) == Ok(!IsZero(d))
    ensures Truncate(d).Some? ==> AsInteger(Real(d)) == Ok(Truncate(d).value)
  {
  }

  /** A value built from a string, dictionary, array, blob or time point
      is of that category and reads back unchanged through its accessor, and
      through no other exact accessor. */
  lemma ExactReadBack(s: string, m: map<string, Value>, a: seq<Value>, bs: seq<byte>, t: TimePoint)
    ensures Is(String(s), StringKind) && AsString(String(s)) == Ok(s)
    ensures Is(Dictionary(m), DictionaryKind) && AsDictionary(Dictionary(m)) == Ok(m)
    ensures Is(Array(a), ArrayKind) && AsArray(Array(a)) == Ok(a)
    ensures Is(Data(bs), DataKind) && AsData(Data(bs)) == Ok(bs)
    ensures Is(Date(t), DateKind) && AsDate(Date(t)) == Ok(t)
    ensures AsDictionary(String(s)).Err? && AsArray(String(s)).Err? &&
      AsData(String(s)).Err? && AsDate(String(s)).Err?
    ensures AsString(Dictionary(m)).Err? && AsArray(Dictionary(m)).Err? &&
      AsData(Dictionary(m)).Err? && AsDate(Dictionary(m)).Err?
    ensures AsString(Array(a)).Err? && AsDictionary(Array(a)).Err? &&
      AsData(Array(a)).Err? && AsDate(Array(a)).Err?
    ensures AsString(Data(bs)).Err? && AsDictionary(Data(bs)).Err? &&
      AsArray(Data(bs)).Err? && AsDate(Data(bs)).Err?
    ensures AsString(Date(t)).Err? && AsDictionary(Date(t)).Err? &&
      AsArray(Date(t)).Err? && AsData(Date(t)).Err?
  {
  }

  /** Integer 0 reads as false and 1 as true, and Boolean true reads as 1. */
  lemma IntegerBooleanExamples()
    ensures AsBool(Integer(0)) == Ok(false) && AsBool(Integer(1)) == Ok(true)
    ensures AsInteger(Boolean(true)) == Ok(1)
  {
  }

  /** The double 0.5 (bits 0x3FE0...) reads as true but as the integer 0. */
  lemma HalfExample()
    ensures AsBool(Real(Double(0x3FE0_0000_0000_0000))) == Ok(true)
    ensures Truncate(Double(0x3FE0_0000_0000_0000)) == Some(0)
  {
    var half := Double(0x3FE0_0000_0000_0000);
    assert Exponent(half) == 1022 && Fraction(half) == 0;
  }

  /** The double -2.5 (bits 0xC004...) reads as the integer -2: truncation
      is toward zero. */
  lemma MinusTwoAndAHalfExample()
    ensures Truncate(Double(0xC004_0000_0000_0000)) == Some(-2) &&
      AsInteger(Real(Double(0xC004_0000_0000_0000))) == Ok(-2)
  {
    var d := Double(0xC004_0000_0000_0000);
    assert Exponent(d) == 1024 && SignBit(d) == 1 && Fraction(d) == 0x4_0000_0000_0000;
    Pow2Values();
    assert Numerator(d) == 0x14_0000_0000_0000 && Denominator(d) == 0x8_0000_0000_0000;
    var m := TruncatedMagnitude(d);
    assert m == 2;
  }
}
