/**
 * The `CodableConvertor` property wrapper: a value of `ReturnType` read either directly or
 * through a `ValueType` the provider maps. Swift compares the two types at run time; here
 * that comparison is the flag `sameTypes`, and the decoders of both types are parameters.
 */
module Convertors {
  import opened Wrappers
  import opened JsonValues

  /** A `ConvertorValueProvider` with return type `R` and value type `V`. */
  datatype Provider<!R, !V> = Provider(
    defaultValue: R,
    decode: V -> R,
    encode: R -> V,
    shouldAlwaysDecode: bool)   // the protocol extension's answer is false

  /** The provider as declared without its own `shouldAlwaysDecode`. */
  function WithDefaultAnswer<R, V>(defaultValue: R, decode: V -> R, encode: R -> V): (p: Provider<R, V>)
    ensures !p.shouldAlwaysDecode
  {
    Provider(defaultValue, decode, encode, false)
  }

  /** `ConvertorError`, and the decoding error the direct decode may throw in the same `do` block. */
  datatype ConvertorError = ValueTypeMismatch | ShouldAlwaysDecode | Decoding(error: DecodeError)

  /** `init()`: the provider's default. */
  function Init<R, V>(p: Provider<R, V>): (r: R)
    ensures r == p.defaultValue
  {
    p.defaultValue
  }

  /** The `do` block of `init(from:)`: the direct decode, or the error that sends it to `catch`. */
  function DirectDecode<R, V>(p: Provider<R, V>, sameTypes: bool, decodeReturn: Decoder<R>, j: Json): Result<R, ConvertorError>
  {
    if !sameTypes then Err(ValueTypeMismatch)
    else if p.shouldAlwaysDecode then Err(ShouldAlwaysDecode)
    else match decodeReturn(j)
      case Ok(v) => Ok(v)
      case Err(e) => Err(Decoding(e))
  }

  /**
   * `init(from:)`, as written: null gives the default; the direct decode only when the
   * types agree and the provider does not insist on mapping; otherwise the value type is
   * decoded and mapped, or the default when that fails too. It never throws.
   */
  function Decode<R, V>(p: Provider<R, V>, sameTypes: bool, decodeReturn: Decoder<R>, decodeValue: Decoder<V>, j: Json): (r: R)
    ensures j == Null ==> r == p.defaultValue
    ensures j != Null && sameTypes && !p.shouldAlwaysDecode && decodeReturn(j).Ok? ==> r == decodeReturn(j).value
    ensures j != Null && !(sameTypes && !p.shouldAlwaysDecode && decodeReturn(j).Ok?) ==>
              r == (if decodeValue(j).Ok? then p.decode(decodeValue(j).value) else p.defaultValue)
  {
    if j == Null then p.defaultValue
    else match DirectDecode(p, sameTypes, decodeReturn, j)
      case Ok(v) => v
      case Err(_) =>
        match decodeValue(j)
        case Ok(value) => p.decode(value)
        case Err(_) => p.defaultValue
  }

  /**
   * `encode(to:)`: the wrapped value written directly; only when that throws, the
   * provider's value-type form, and nothing at all when that throws as well.
   */
  function Encode<R, V>(p: Provider<R, V>, encodeReturn: R -> Result<Json, string>, encodeValue: V -> Result<Json, string>, wrappedValue: R): (r: Option<Json>)
    ensures encodeReturn(wrappedValue).Ok? ==> r == Some(encodeReturn(wrappedValue).value)
    ensures encodeReturn(wrappedValue).Err? && encodeValue(p.encode(wrappedValue)).Ok? ==> r == Some(encodeValue(p.encode(wrappedValue)).value)
    ensures encodeReturn(wrappedValue).Err? && encodeValue(p.encode(wrappedValue)).Err? ==> r == None
  {
    match encodeReturn(wrappedValue)
    case Ok(j) => Some(j)
    case Err(_) =>
      match encodeValue(p.encode(wrappedValue))
      case Ok(j) => Some(j)
      case Err(_) => None
  }

  /**
   * `init(from:)` as the direct-decode test cases expect it: when the value type does not
   * decode, the return type is tried before the default.
   */
  function DecodeIntended<R, V>(p: Provider<R, V>, sameTypes: bool, decodeReturn: Decoder<R>, decodeValue: Decoder<V>, j: Json): (r: R)
    ensures j == Null ==> r == p.defaultValue
    ensures j != Null && decodeValue(j).Err? && decodeReturn(j).Ok? ==> r == decodeReturn(j).value
    ensures j != Null && decodeValue(j).Ok? && !(sameTypes && !p.shouldAlwaysDecode && decodeReturn(j).Ok?) ==>
              r == p.decode(decodeValue(j).value)
  {
    if j == Null then p.defaultValue
    else match DirectDecode(p, sameTypes, decodeReturn, j)
      case Ok(v) => v
      case Err(_) =>
        match decodeValue(j)
        case Ok(value) => p.decode(value)
        case Err(_) =>
          match decodeReturn(j)
          case Ok(v) => v
          case Err(_) => p.defaultValue
  }

  // ---------------------------------------------------------------- properties

  /** With equal types the wrapper round-trips every value the type itself round-trips. */
  lemma SameTypesRoundTrip<R, V>(p: Provider<R, V>, decodeReturn: Decoder<R>, decodeValue: Decoder<V>,
                                 encodeReturn: R -> Result<Json, string>, encodeValue: V -> Result<Json, string>, v: R)
    requires !p.shouldAlwaysDecode
    requires encodeReturn(v).Ok? && encodeReturn(v).value != Null && decodeReturn(encodeReturn(v).value) == Ok(v)
    ensures Decode(p, true, decodeReturn, decodeValue, Encode(p, encodeReturn, encodeValue, v).value) == v
  {
  }

  /**
   * As written, with differing types a value whose return type encodes without error is
   * written in return-type form, which `Decode` then never reads: unless that form also
   * decodes as the value type, the value read back is the default.
   */
  lemma DifferingTypesLoseTheValue<R, V>(p: Provider<R, V>, decodeReturn: Decoder<R>, decodeValue: Decoder<V>,
                                         encodeReturn: R -> Result<Json, string>, encodeValue: V -> Result<Json, string>, v: R)
    requires encodeReturn(v).Ok? && encodeReturn(v).value != Null && decodeValue(encodeReturn(v).value).Err?
    ensures Decode(p, false, decodeReturn, decodeValue, Encode(p, encodeReturn, encodeValue, v).value) == p.defaultValue
  {
  }

  /** The corrected decode reads that form back. */
  lemma IntendedRoundTrip<R, V>(p: Provider<R, V>, sameTypes: bool, decodeReturn: Decoder<R>, decodeValue: Decoder<V>,
                                encodeReturn: R -> Result<Json, string>, encodeValue: V -> Result<Json, string>, v: R)
    requires encodeReturn(v).Ok? && encodeReturn(v).value != Null && decodeReturn(encodeReturn(v).value) == Ok(v)
    requires decodeValue(encodeReturn(v).value).Err?
    ensures DecodeIntended(p, sameTypes, decodeReturn, decodeValue, Encode(p, encodeReturn, encodeValue, v).value) == v
  {
  }

  /** The corrected decode agrees with the one as written wherever the latter reads a value. */
  lemma IntendedAgreesOnValues<R, V>(p: Provider<R, V>, sameTypes: bool, decodeReturn: Decoder<R>, decodeValue: Decoder<V>, j: Json)
    requires j == Null || (sameTypes && !p.shouldAlwaysDecode && decodeReturn(j).Ok?) || decodeValue(j).Ok?
    ensures DecodeIntended(p, sameTypes, decodeReturn, decodeValue, j) == Decode(p, sameTypes, decodeReturn, decodeValue, j)
  {
  }

  // ---------------------------------------------------------------- the price convertor

  /** A provider from a string to a Double, with 0 as its default; `parse` is `Double(_:)`. */
  function StringToDouble(parse: string -> Option<real>, show: real -> string): Provider<real, string>
  {
    WithDefaultAnswer(0.0, s => parse(s).GetOr(0.0), show)
  }

  /**
   * `"price": "3.99"` is parsed by the provider, `"price": null` is 0, and `"price": 5.11`,
   * a number where a string is expected, is 0 as written and 5.11 as intended.
   */
  lemma PriceCases(parse: string -> Option<real>, show: real -> string)
    ensures Decode(StringToDouble(parse, show), false, DecodeDouble, DecodeString, Text("3.99")) == parse("3.99").GetOr(0.0)
    ensures Decode(StringToDouble(parse, show), false, DecodeDouble, DecodeString, Null) == 0.0
    ensures Decode(StringToDouble(parse, show), false, DecodeDouble, DecodeString, Number(5.11)) == 0.0
    ensures DecodeIntended(StringToDouble(parse, show), false, DecodeDouble, DecodeString, Number(5.11)) == 5.11
  {
  }
}
