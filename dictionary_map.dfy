/**
 * `Dictionary.map(_:)`, the re-keying map: every entry goes through the handler, and the
 * pair it produces is inserted into a new dictionary. The dictionary's iteration order is
 * the order of `entries`.
 */
module DictionaryMapping {

  /** The pairs the handler produces, in iteration order. */
  function Produced<K, V, T, U>(entries: seq<(K, V)>, handler: (K, V) -> (T, U)): (ps: seq<(T, U)>)
    ensures |ps| == |entries|
    ensures forall i :: 0 <= i < |ps| ==> ps[i] == handler(entries[i].0, entries[i].1)
  {
    seq(|entries|, i requires 0 <= i < |entries| => handler(entries[i].0, entries[i].1))
  }

  ghost function KeysOf<T, U>(ps: seq<(T, U)>): set<T>
  {
    set p | p in ps :: p.0
  }

  /**
   * The dictionary after inserting `ps` in order. Its keys are exactly the keys of the
   * pairs; it has no more entries than there are pairs, and none exactly when there are
   * no pairs.
   */
  function Inserted<T, U>(ps: seq<(T, U)>): (r: map<T, U>)
    ensures r.Keys == KeysOf(ps)
    ensures |r| <= |ps|
    ensures |r| == 0 <==> ps == []
  {
    if ps == [] then map[]
    else
      var n := |ps| - 1;
      var r := Inserted(ps[..n])[ps[n].0 := ps[n].1];
      assert ps == ps[..n] + [ps[n]];
      assert KeysOf(ps) == KeysOf(ps[..n]) + {ps[n].0};
      assert r.Keys == KeysOf(ps[..n]) + {ps[n].0};
      r
  }

  /** `map(_:)`: the produced pairs inserted in iteration order. */
  function Rekeyed<K, V, T, U>(entries: seq<(K, V)>, handler: (K, V) -> (T, U)): (r: map<T, U>)
    ensures forall i :: 0 <= i < |entries| ==> handler(entries[i].0, entries[i].1).0 in r
    ensures forall t :: t in r ==> exists i :: 0 <= i < |entries| && handler(entries[i].0, entries[i].1).0 == t
    ensures |r| <= |entries|
    ensures |r| == 0 <==> entries == []
  {
    var ps := Produced(entries, handler);
    forall i | 0 <= i < |entries|
      ensures handler(entries[i].0, entries[i].1).0 in KeysOf(ps)
    {
      assert ps[i] in ps;
    }
    forall t | t in KeysOf(ps)
      ensures exists i :: 0 <= i < |entries| && handler(entries[i].0, entries[i].1).0 == t
    {
      var p :| p in ps && p.0 == t;
      var i :| 0 <= i < |ps| && ps[i] == p;
      assert handler(entries[i].0, entries[i].1).0 == t;
    }
    Inserted(ps)
  }

  /**
   * A pair whose key no later pair repeats is in the result: of two pairs with the same
   * key, the one inserted later wins.
   */
  lemma {:induction false} LaterOverwrites<T, U>(ps: seq<(T, U)>, i: int)
    requires 0 <= i < |ps|
    requires forall j :: i < j < |ps| ==> ps[j].0 != ps[i].0
    ensures ps[i].0 in Inserted(ps) && Inserted(ps)[ps[i].0] == ps[i].1
  {
    var n := |ps| - 1;
    if i < n {
      var prefix := ps[..n];
      PrefixKeepsLater(ps, i);
      LaterOverwrites(prefix, i);
      InsertedLast(ps, ps[i].0);
    }
  }

  lemma PrefixKeepsLater<T, U>(ps: seq<(T, U)>, i: int)
    requires 0 <= i < |ps| - 1
    requires forall j :: i < j < |ps| ==> ps[j].0 != ps[i].0
    ensures var prefix := ps[..|ps| - 1];
      prefix[i] == ps[i] && forall j :: i < j < |prefix| ==> prefix[j].0 != prefix[i].0
  {
  }

  /** Inserting the last pair leaves every other key as the prefix had it. */
  lemma InsertedLast<T, U>(ps: seq<(T, U)>, k: T)
    requires ps != [] && k != ps[|ps| - 1].0
    ensures var prefix := Inserted(ps[..|ps| - 1]);
      (k in Inserted(ps) <==> k in prefix) && (k in prefix ==> Inserted(ps)[k] == prefix[k])
  {
  }

  /** The same for the produced pairs: the pair produced later in iteration order wins. */
  lemma LaterEntryWins<K, V, T, U>(entries: seq<(K, V)>, handler: (K, V) -> (T, U), i: int)
    requires 0 <= i < |entries|
    requires forall j :: i < j < |entries| ==> handler(entries[j].0, entries[j].1).0 != handler(entries[i].0, entries[i].1).0
    ensures var produced := handler(entries[i].0, entries[i].1);
      Rekeyed(entries, handler)[produced.0] == produced.1
  {
    LaterOverwrites(Produced(entries, handler), i);
  }

  /** The loop of `map(_:)`: each entry's pair is inserted in turn. */
  method Map<K, V, T, U>(entries: seq<(K, V)>, handler: (K, V) -> (T, U)) returns (dictionary: map<T, U>)
    ensures dictionary == Rekeyed(entries, handler)
  {
    ghost var ps := Produced(entries, handler);
    dictionary := map[];
    for n := 0 to |entries|
      invariant dictionary == Inserted(ps[..n])
    {
      var result := handler(entries[n].0, entries[n].1);
      dictionary := dictionary[result.0 := result.1];
      assert ps[..n + 1][..n] == ps[..n];
    }
    assert ps[..|entries|] == ps;
  }
}
