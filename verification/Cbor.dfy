/** Decoded CBOR items and key lookup in a map. Floats are real numbers here. */
module Cbor {
  import opened Bytes

  datatype Item =
    | Uint(value: nat)
    | Str(text: string)
    | Bool(on: bool)
    | Float(number: real)
    | Null
    | Array(items: seq<Item>)
    | Map(pairs: seq<Pair>)

  datatype Pair = Pair(key: Item, value: Item)

  predicate KeyIs(pair: Pair, key: string) {
    pair.key == Str(key)
  }

  /** r is the value of the first pair with that key. */
  ghost predicate IsFirst(pairs: seq<Pair>, key: string, r: Option<Item>) {
    match r
    case None => forall i :: 0 <= i < |pairs| ==> pairs[i].key != Str(key)
    case Some(v) =>
      exists i :: 0 <= i < |pairs| && pairs[i].key == Str(key) && pairs[i].value == v &&
                  forall j :: 0 <= j < i ==> pairs[j].key != Str(key)
  }

  lemma FirstOfTail(pairs: seq<Pair>, key: string, r: Option<Item>)
    requires pairs != [] && !KeyIs(pairs[0], key) && IsFirst(pairs[1..], key, r)
    ensures IsFirst(pairs, key, r)
  {
    match r
    case None =>
      forall i | 0 <= i < |pairs|
        ensures !KeyIs(pairs[i], key)
      {
        assert i > 0 ==> pairs[i] == pairs[1..][i - 1];
      }
    case Some(v) =>
      var i :| 0 <= i < |pairs| - 1 && KeyIs(pairs[1..][i], key) && pairs[1..][i].value == v &&
               forall j :: 0 <= j < i ==> !KeyIs(pairs[1..][j], key);
      forall j | 0 <= j < i + 1
        ensures !KeyIs(pairs[j], key)
      {
        assert j > 0 ==> pairs[j] == pairs[1..][j - 1];
      }
      assert KeyIs(pairs[i + 1], key);
  }

  function Lookup(pairs: seq<Pair>, key: string): (r: Option<Item>)
    ensures IsFirst(pairs, key, r)
  {
    if pairs == [] then None
    else if KeyIs(pairs[0], key) then Some(pairs[0].value)
    else
      var r := Lookup(pairs[1..], key);
      FirstOfTail(pairs, key, r);
      r
  }

  lemma FirstUnique(pairs: seq<Pair>, key: string, r: Option<Item>)
    requires IsFirst(pairs, key, r)
    ensures r == Lookup(pairs, key)
  {}

  /** Only maps have keys. */
  function Get(item: Item, key: string): Option<Item> {
    if item.Map? then Lookup(item.pairs, key) else None
  }

  method CborMapGet(map_: Item, inKey: string) returns (r: Option<Item>)
    ensures r == Get(map_, inKey)
  {
    if !map_.Map? {
      return None;
    }
    for i := 0 to |map_.pairs|
      invariant forall j :: 0 <= j < i ==> !KeyIs(map_.pairs[j], inKey)
    {
      if KeyIs(map_.pairs[i], inKey) {
        FirstUnique(map_.pairs, inKey, Some(map_.pairs[i].value));
        return Some(map_.pairs[i].value);
      }
    }
    FirstUnique(map_.pairs, inKey, None);
    return None;
  }
}
