/**
 * The `Filterable` property wrapper: the whole decoded array is stored, and reading it
 * gives only the elements the strategy keeps. A strategy is its `filter` predicate.
 */
module Filterables {
  import opened Wrappers
  import opened Seqs
  import opened JsonValues
  import opened UnknownableEnums

  /** The wrapper's stored array, `value`, which only the setter and decoding replace. */
  datatype Filterable<T> = Filterable(value: seq<T>)

  /** The getter of `wrappedValue`: the stored elements the strategy keeps, in their order. */
  function Get<T>(f: Filterable<T>, keep: T -> bool): (r: seq<T>)
    ensures forall x :: x in r ==> x in f.value && keep(x)
    ensures forall x :: x in f.value && keep(x) ==> x in r
    ensures IsSubsequence(r, f.value)
  {
    FilterIsSubsequence(f.value, keep);
    Filter(f.value, keep)
  }

  /** The setter of `wrappedValue`, and `init(wrappedValue:)`: the new array, stored unfiltered. */
  function Set<T>(f: Filterable<T>, newValue: seq<T>): (r: Filterable<T>)
    ensures r.value == newValue
  {
    Filterable(newValue)
  }

  /** `init(from:)`: every element decoded and stored; one element that fails fails the whole. */
  function Decode<T>(decodeElement: Decoder<T>, j: Json): (r: Result<Filterable<T>, DecodeError>)
    ensures r.Ok? <==> j.Array? && forall i :: 0 <= i < |j.items| ==> decodeElement(j.items[i]).Ok?
    ensures r.Ok? ==> |r.value.value| == |j.items|
                      && forall i :: 0 <= i < |j.items| ==> r.value.value[i] == decodeElement(j.items[i]).value
  {
    match DecodeArray(decodeElement, j)
    case Ok(xs) => Ok(Filterable(xs))
    case Err(e) => Err(e)
  }

  /** `encode(to:)`: the filtered view, not the stored array. */
  function Encode<T>(f: Filterable<T>, keep: T -> bool, encodeElement: T -> Json): (r: Json)
    ensures r.Array? && |r.items| <= |f.value|
  {
    Array(EncodeItems(encodeElement, Get(f, keep)))
  }

  // ---------------------------------------------------------------- properties

  /** Reading after a set gives the set array, filtered. */
  lemma GetAfterSet<T>(f: Filterable<T>, keep: T -> bool, newValue: seq<T>)
    ensures Get(Set(f, newValue), keep) == Filter(newValue, keep)
  {
  }

  /** Assigning the wrapped value to itself changes nothing a reader sees: filtering is idempotent. */
  lemma ReassignIsStable<T>(f: Filterable<T>, keep: T -> bool)
    ensures Get(Set(f, Get(f, keep)), keep) == Get(f, keep)
  {
    FilterIdempotent(f.value, keep);
  }

  /**
   * What is encoded decodes to the filtered view, so the reader sees the same elements as
   * before, though the elements filtered out are no longer stored.
   */
  lemma RoundTrip<T>(f: Filterable<T>, keep: T -> bool, encodeElement: T -> Json, decodeElement: Decoder<T>)
    requires forall x :: x in f.value ==> decodeElement(encodeElement(x)) == Ok(x)
    ensures Decode(decodeElement, Encode(f, keep, encodeElement)) == Ok(Filterable(Get(f, keep)))
    ensures Get(Decode(decodeElement, Encode(f, keep, encodeElement)).value, keep) == Get(f, keep)
  {
    var view := Get(f, keep);
    forall i | 0 <= i < |view|
      ensures decodeElement(encodeElement(view[i])) == Ok(view[i])
    {
      assert view[i] in view;
    }
    ItemsRoundTrip(encodeElement, decodeElement, view);
    FilterIdempotent(f.value, keep);
  }

  // ---------------------------------------------------------------- the two strategies

  /** `UnknownEnumFilterableStrategy`: every case but `.unknown`. */
  function UnknownEnumStrategy<E(==)>(unknown: E): E -> bool
  {
    e => e != unknown
  }

  /** `UnknownFilterableStrategy`: every element that does not report itself unknown. */
  function UnknownStrategy<T>(isUnknown: T -> bool): T -> bool
  {
    e => !isUnknown(e)
  }

  /** `fruits: [ "apple", "banana", "pear" ]` read through the unknown-enum strategy: `[.apple, .banana]`. */
  lemma UnknownEnumFilterableCase()
    ensures var f := Decode(DecodeFruit, Array([Text("apple"), Text("banana"), Text("pear")]));
      f == Ok(Filterable([Apple, Banana, Unknown])) && Get(f.value, UnknownEnumStrategy(Unknown)) == [Apple, Banana]
  {
    FruitCases();
    var keep := UnknownEnumStrategy(Unknown);
    assert [Apple, Banana, Unknown][1..] == [Banana, Unknown] && [Banana, Unknown][1..] == [Unknown] && [Unknown][1..] == [];
    assert Filter([Unknown], keep) == [];
    assert Filter([Banana, Unknown], keep) == [Banana];
  }

  /** A salad with a name and one fruit; it is unknown when its fruit is. */
  datatype SingleSalad = SingleSalad(name: string, fruit: Fruit)

  function IsUnknownSalad(s: SingleSalad): bool
  {
    s.fruit == Unknown
  }

  /** The synthesised decoding of `SingleSalad`: both keys are required. */
  function DecodeSalad(j: Json): (r: Result<SingleSalad, DecodeError>)
    ensures j.Object? && "name" in j.fields && j.fields["name"].Text? && "fruit" in j.fields ==> r.Ok?
  {
    match j
    case Object(fields) =>
      (match DecodeKey(fields, "name", DecodeString)
       case Err(e) => Err(e)
       case Ok(name) =>
         match DecodeKey(fields, "fruit", DecodeFruit)
         case Err(e) => Err(e)
         case Ok(fruit) => Ok(SingleSalad(name, fruit)))
    case Null => Err(ValueNotFound("SingleSalad", []))
    case _ => Err(TypeMismatch("SingleSalad", []))
  }

  function SaladJson(name: string, fruit: string): Json
  {
    Object(map["name" := Text(name), "fruit" := Text(fruit)])
  }

  lemma SaladDecodes(name: string, raw: string)
    ensures DecodeSalad(SaladJson(name, raw)) == Ok(SingleSalad(name, DecodeFruit(Text(raw)).value))
  {
    var fields := map["name" := Text(name), "fruit" := Text(raw)];
    assert "name" in fields && "fruit" in fields && fields["name"] == Text(name) && fields["fruit"] == Text(raw);
  }

  /** Three salads of apple, tangerine and pear read through the unknown strategy: the first two remain. */
  lemma UnknownFilterableCase(a: string, t: string, p: string)
    ensures var f := Decode(DecodeSalad, Array([SaladJson(a, "apple"), SaladJson(t, "tangerine"), SaladJson(p, "pear")]));
      f == Ok(Filterable([SingleSalad(a, Apple), SingleSalad(t, Tangerine), SingleSalad(p, Unknown)]))
      && Get(f.value, UnknownStrategy(IsUnknownSalad)) == [SingleSalad(a, Apple), SingleSalad(t, Tangerine)]
  {
    SaladsDecode(a, t, p);
    SaladsFilter(a, t, p);
  }

  lemma SaladsDecode(a: string, t: string, p: string)
    ensures Decode(DecodeSalad, Array([SaladJson(a, "apple"), SaladJson(t, "tangerine"), SaladJson(p, "pear")]))
            == Ok(Filterable([SingleSalad(a, Apple), SingleSalad(t, Tangerine), SingleSalad(p, Unknown)]))
  {
    FruitRawCases();
    SaladDecodes(a, "apple");
    SaladDecodes(t, "tangerine");
    SaladDecodes(p, "pear");
    var items := [SaladJson(a, "apple"), SaladJson(t, "tangerine"), SaladJson(p, "pear")];
    var salads := [SingleSalad(a, Apple), SingleSalad(t, Tangerine), SingleSalad(p, Unknown)];
    var f := Decode(DecodeSalad, Array(items));
    assert f.Ok? && |f.value.value| == 3;
    assert f.value.value[0] == salads[0] && f.value.value[1] == salads[1] && f.value.value[2] == salads[2];
    assert f.value.value == salads;
  }

  lemma SaladsFilter(a: string, t: string, p: string)
    ensures Filter([SingleSalad(a, Apple), SingleSalad(t, Tangerine), SingleSalad(p, Unknown)], UnknownStrategy(IsUnknownSalad))
            == [SingleSalad(a, Apple), SingleSalad(t, Tangerine)]
  {
    var salads := [SingleSalad(a, Apple), SingleSalad(t, Tangerine), SingleSalad(p, Unknown)];
    var keep := UnknownStrategy(IsUnknownSalad);
    assert !IsUnknownSalad(salads[0]) && !IsUnknownSalad(salads[1]) && IsUnknownSalad(salads[2]);
    assert keep(salads[0]) && keep(salads[1]) && !keep(salads[2]);
    assert salads[1..] == [salads[1], salads[2]] && salads[1..][1..] == [salads[2]] && [salads[2]][1..] == [];
    assert Filter([salads[2]], keep) == [];
    assert Filter(salads[1..], keep) == [salads[1]];
  }
}
