/**
 * `UnknownableEnum`: an enum whose decoding falls back to its `.unknown` case instead of
 * throwing. The raw type's decoder and the enum's `init(rawValue:)` are parameters.
 */
module UnknownableEnums {
  import opened Wrappers
  import opened JsonValues

  /**
   * `init(from:)`: the raw value, then the case it names; a raw value that does not decode
   * or names no case gives `unknown`. The result is a value: decoding never throws.
   */
  function Decode<R, E>(decodeRaw: Decoder<R>, fromRaw: R -> Option<E>, unknown: E, j: Json): (r: E)
    ensures decodeRaw(j).Ok? && fromRaw(decodeRaw(j).value).Some? ==> r == fromRaw(decodeRaw(j).value).value
    ensures decodeRaw(j).Err? ==> r == unknown
    ensures decodeRaw(j).Ok? && fromRaw(decodeRaw(j).value).None? ==> r == unknown
  {
    match decodeRaw(j)
    case Err(_) => unknown
    case Ok(raw) => fromRaw(raw).GetOr(unknown)
  }

  /** A case written as its raw value is read back as itself. */
  lemma RoundTrip<R, E>(decodeRaw: Decoder<R>, encodeRaw: R -> Json, fromRaw: R -> Option<E>, rawValue: E -> R, unknown: E, e: E)
    requires decodeRaw(encodeRaw(rawValue(e))) == Ok(rawValue(e))
    requires fromRaw(rawValue(e)) == Some(e)
    ensures Decode(decodeRaw, fromRaw, unknown, encodeRaw(rawValue(e))) == e
  {
  }

  // ---------------------------------------------------------------- an example enum

  datatype Fruit = Apple | Banana | Tangerine | Unknown

  function FruitRaw(f: Fruit): string
  {
    match f
    case Apple => "apple"
    case Banana => "banana"
    case Tangerine => "tangerine"
    case Unknown => "unknown"
  }

  /** `Fruit(rawValue:)`: the case whose raw value is `raw`, if any. */
  function FruitFromRaw(raw: string): (r: Option<Fruit>)
    ensures r.Some? ==> FruitRaw(r.value) == raw
    ensures forall f :: FruitRaw(f) == raw ==> r == Some(f)
  {
    if raw == "apple" then Some(Apple)
    else if raw == "banana" then Some(Banana)
    else if raw == "tangerine" then Some(Tangerine)
    else if raw == "unknown" then Some(Unknown)
    else None
  }

  /** A fruit decoded with the `.unknown` fallback. */
  function DecodeFruit(j: Json): (r: Result<Fruit, DecodeError>)
    ensures r.Ok?
  {
    Ok(Decode(DecodeString, FruitFromRaw, Unknown, j))
  }

  /** The raw values of the cases name them; "pear" names none. */
  lemma FruitRawCases()
    ensures DecodeFruit(Text("apple")) == Ok(Apple) && DecodeFruit(Text("banana")) == Ok(Banana)
    ensures DecodeFruit(Text("tangerine")) == Ok(Tangerine) && DecodeFruit(Text("pear")) == Ok(Unknown)
  {
    assert FruitFromRaw("pear") == None by {
      assert "pear" != "apple" && "pear" != "banana" && "pear" != "tangerine" && "pear" != "unknown";
    }
  }

  /** `[ "apple", "banana", "pear" ]` decodes to `[.apple, .banana, .unknown]`, and so does a number. */
  lemma FruitCases()
    ensures DecodeArray(DecodeFruit, Array([Text("apple"), Text("banana"), Text("pear")])) == Ok([Apple, Banana, Unknown])
    ensures DecodeFruit(Number(1.0)) == Ok(Unknown)
  {
    var items := [Text("apple"), Text("banana"), Text("pear")];
    FruitRawCases();
    var r := DecodeArray(DecodeFruit, Array(items));
    assert r.Ok? && |r.value| == 3;
    assert r.value[0] == Apple && r.value[1] == Banana && r.value[2] == Unknown;
    assert r.value == [Apple, Banana, Unknown];
  }
}
