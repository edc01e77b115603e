/**
 * The `DefaultCodable` property wrapper: a value decoded as its raw type, or the strategy's
 * default when that decode throws. A strategy is reduced to its default value; the raw
 * type's own decoding and encoding are parameters.
 */
module DefaultCodables {
  import opened Wrappers
  import opened JsonValues

  // ---------------------------------------------------------------- strategies

  /** `DefaultFalseStrategy`, `DefaultTrueStrategy`. */
  const DefaultFalse: bool := false
  const DefaultTrue: bool := true

  /** The numeric kinds `DefaultZeroStrategy` knows; each gives its own zero. */
  datatype NumericKind = IntKind | UIntKind | DoubleKind | FloatKind | CGFloatKind

  /** `DefaultZeroStrategy<T>.defaultValue`: zero, whichever kind `T` is. */
  function DefaultZero(kind: NumericKind): (r: real)
    ensures r == 0.0
  {
    match kind
    case IntKind => 0.0
    case UIntKind => 0.0
    case DoubleKind => 0.0
    case FloatKind => 0.0
    case CGFloatKind => 0.0
  }

  /** `DefaultEmptyStrategy` (an empty string or array), `DefaultEmptyDictionaryStrategy`, `DefaultNilStrategy`. */
  function DefaultEmpty<T>(): seq<T> { [] }
  function DefaultEmptyDictionary<K, V>(): map<K, V> { map[] }
  function DefaultNil<T>(): Option<T> { None }

  /** `FirstEnumCase`: the first of `allCases`; an enum without cases traps on the force unwrap. */
  function FirstEnumCase<A>(allCases: seq<A>): (r: A)
    requires |allCases| > 0
    ensures r in allCases && r == allCases[0]
  {
    allCases[0]
  }

  /** `LastEnumCase`: the last of `allCases`, read at index `count - 1`. */
  function LastEnumCase<A>(allCases: seq<A>): (r: A)
    requires |allCases| > 0
    ensures r in allCases && r == allCases[|allCases| - 1]
  {
    allCases[|allCases| - 1]
  }

  // ---------------------------------------------------------------- the wrapper

  /**
   * `DefaultCodable.init(from:)`: the single-value decode of the raw type, or the default
   * for any error it throws. Nothing escapes: the result is a value, never an error.
   */
  function Decode<T>(decodeRaw: Decoder<T>, defaultValue: T, j: Json): (r: T)
    ensures decodeRaw(j).Ok? ==> r == decodeRaw(j).value
    ensures decodeRaw(j).Err? ==> r == defaultValue
  {
    match decodeRaw(j)
    case Ok(v) => v
    case Err(_) => defaultValue
  }

  /** `DefaultCodable.encode(to:)`: the wrapped value, written as the raw type writes it. */
  function Encode<T>(encodeRaw: T -> Json, wrappedValue: T): Json
  {
    encodeRaw(wrappedValue)
  }

  /**
   * The keyed `decode(_:forKey:)` overload: `decodeIfPresent` of the wrapper, and the
   * default when that gives nil. It never throws.
   */
  function DecodeAt<T>(fields: Fields, key: string, decodeRaw: Decoder<T>, defaultValue: T): (r: Result<T, DecodeError>)
    ensures r.Ok?
    ensures key !in fields || fields[key] == Null ==> r.value == defaultValue
    ensures key in fields && fields[key] != Null && decodeRaw(fields[key]).Ok? ==> r.value == decodeRaw(fields[key]).value
    ensures key in fields && fields[key] != Null && decodeRaw(fields[key]).Err? ==> r.value == defaultValue
  {
    match DecodeIfPresent(fields, key, j => Ok(Decode(decodeRaw, defaultValue, j)))
    case Ok(Some(value)) => Ok(value)
    case Ok(None) => Ok(defaultValue)
    case Err(e) => Err(e)
  }

  // ---------------------------------------------------------------- properties

  /** A value the raw type round-trips is decoded back from what the wrapper encodes. */
  lemma RoundTrip<T>(encodeRaw: T -> Json, decodeRaw: Decoder<T>, defaultValue: T, v: T)
    requires decodeRaw(encodeRaw(v)) == Ok(v)
    ensures Decode(decodeRaw, defaultValue, Encode(encodeRaw, v)) == v
  {
  }

  /**
   * The same under a key: a value written as null comes back as the default, so the round
   * trip holds for every value except one that encodes to null and is not the default.
   */
  lemma RoundTripAt<T>(fields: Fields, key: string, encodeRaw: T -> Json, decodeRaw: Decoder<T>, defaultValue: T, v: T)
    requires decodeRaw(encodeRaw(v)) == Ok(v)
    requires encodeRaw(v) == Null ==> v == defaultValue
    ensures DecodeAt(fields[key := Encode(encodeRaw, v)], key, decodeRaw, defaultValue) == Ok(v)
  {
  }

  /** `DefaultNil<T>`: any value that does not decode as `T` is nil, and so is a null. */
  lemma DefaultNilDropsBadValues<T>(decodeRaw: Decoder<T>, j: Json)
    ensures decodeRaw(j).Err? ==> Decode(x => DecodeOptional(decodeRaw, x), DefaultNil(), j) == None
    ensures Decode(x => DecodeOptional(decodeRaw, x), DefaultNil(), Null) == None
    ensures j != Null && decodeRaw(j).Ok? ==> Decode(x => DecodeOptional(decodeRaw, x), DefaultNil(), j) == Some(decodeRaw(j).value)
  {
  }

  /** `@DefaultFalse var hasFruit: Bool`: true when present and true, false otherwise. */
  lemma DefaultFalseCases(name: string)
    ensures DecodeAt(map["name" := Text(name), "hasFruit" := Boolean(true)], "hasFruit", DecodeBool, DefaultFalse) == Ok(true)
    ensures DecodeAt(map["name" := Text(name), "hasFruit" := Text("something")], "hasFruit", DecodeBool, DefaultFalse) == Ok(false)
    ensures DecodeAt(map["name" := Text(name), "hasVegetables" := Boolean(true)], "hasFruit", DecodeBool, DefaultFalse) == Ok(false)
  {
    var absent := map["name" := Text(name), "hasVegetables" := Boolean(true)];
    assert "hasFruit" !in absent;
  }

  datatype Vegetable = Tomato | Patato | Onion

  function VegetableFromRaw(raw: string): (r: Option<Vegetable>)
    ensures r.Some? <==> raw in {"tomato", "patato", "onion"}
  {
    if raw == "tomato" then Some(Tomato)
    else if raw == "patato" then Some(Patato)
    else if raw == "onion" then Some(Onion)
    else None
  }

  /** `@DefaultNil<String>` and `@DefaultNil<Vegetable>`: a number is no string and "carrot" no vegetable. */
  lemma DefaultNilCases()
    ensures var fields := map["name" := Number(1234.0), "vegetable" := Text("tomato")];
      DecodeAt(fields, "name", x => DecodeOptional(DecodeString, x), DefaultNil()) == Ok(None)
      && DecodeAt(fields, "vegetable", x => DecodeOptional(y => DecodeRawEnum(VegetableFromRaw, y), x), DefaultNil()) == Ok(Some(Tomato))
    ensures var fields := map["name" := Text("Some salad"), "vegetable" := Text("carrot")];
      DecodeAt(fields, "name", x => DecodeOptional(DecodeString, x), DefaultNil()) == Ok(Some("Some salad"))
      && DecodeAt(fields, "vegetable", x => DecodeOptional(y => DecodeRawEnum(VegetableFromRaw, y), x), DefaultNil()) == Ok(None)
  {
  }

  /**
   * A missing key gives each strategy's default. The last two clauses use `FirstEnumCase` and
   * `LastEnumCase` as strategies: the source declares them `DefaultValueProvider`s rather than
   * `DefaultCodableStrategy`s, so these two clauses state the fallback to the first and to the last enum case that
   * those types document, not a wrapper the source itself builds.
   */
  lemma MissingKeyGivesDefault(fields: Fields, key: string, kind: NumericKind, cases: seq<string>)
    requires key !in fields && |cases| > 0
    ensures DecodeAt(fields, key, DecodeBool, DefaultFalse) == Ok(false)
    ensures DecodeAt(fields, key, DecodeBool, DefaultTrue) == Ok(true)
    ensures DecodeAt(fields, key, DecodeDouble, DefaultZero(kind)) == Ok(0.0)
    ensures DecodeAt(fields, key, DecodeString, DefaultEmpty()) == Ok("")
    ensures DecodeAt(fields, key, x => DecodeOptional(DecodeString, x), DefaultNil()) == Ok(None)
    ensures DecodeAt(fields, key, x => DecodeRawEnum(r => if r in cases then Some(r) else None, x), FirstEnumCase(cases)) == Ok(cases[0])
    ensures DecodeAt(fields, key, x => DecodeRawEnum(r => if r in cases then Some(r) else None, x), LastEnumCase(cases)) == Ok(cases[|cases| - 1])
  {
  }
}
