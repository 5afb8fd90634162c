/**
 * The small helpers under src/util: boolean/number conversion, defaulting of
 * absent values, arrays as index-keyed maps, and one-or-many normalisation.
 */
module Util {
  import opened Wrappers
  import opened Text

  /** `booleanToNumber`: VDF stores flags as numbers. */
  function BooleanToNumber(b: bool): (n: int)
    ensures n == 0 || n == 1
    ensures b <==> n > 0
  {
    if b then 1 else 0
  }

  /** `numberToBoolean`: any positive number is true. */
  function NumberToBoolean(n: int): (b: bool)
    ensures b <==> n > 0
  {
    n > 0
  }

  /** Converting a flag to a number and back gives the flag again. */
  lemma BooleanNumberRoundTrip(b: bool)
    ensures NumberToBoolean(BooleanToNumber(b)) == b
  {
  }

  /** `getValueOr`: the given value unless it is `undefined` or `null`. */
  function GetValueOr<T>(given: Option<T>, default: T): (r: T)
    ensures given.Some? ==> r == given.value
    ensures given.None? ==> r == default
  {
    match given
    case Some(v) => v
    case None => default
  }


  /** A value that is either one item or an array of items. */
  datatype OneOrMany<T> = One(item: T) | Many(items: seq<T>)

  /** `arrayify`: an array is kept, a single item becomes a one-element array. */
  function Arrayify<T>(v: OneOrMany<T>): (r: seq<T>)
    ensures v.One? ==> r == [v.item]
    ensures v.Many? ==> r == v.items
  {
    match v
    case One(x) => [x]
    case Many(xs) => xs
  }


  /** The keys `"0"`, `"1"`, ... of an index-keyed map of `n` items. */
  function IndexKeys(n: nat): (ks: set<string>)
    ensures forall i :: 0 <= i < n ==> DecimalString(i) in ks
  {
    if n == 0 then {} else IndexKeys(n - 1) + {DecimalString(n - 1)}
  }

  /** Only the indices below `n` are keys. */
  lemma {:induction false} NotAnIndexKey(j: nat, n: nat)
    requires n <= j
    ensures DecimalString(j) !in IndexKeys(n)
  {
    if n > 0 {
      NotAnIndexKey(j, n - 1);
      DecimalStringDistinct(j, n - 1);
    }
  }

  /**
   * `arrayToIndexedMap`: the object whose key `${index}` holds the item at
   * that index (the shape VDF uses for lists).
   */
  function IndexedMap<T>(xs: seq<T>): (m: map<string, T>)
    ensures forall i :: 0 <= i < |xs| ==> DecimalString(i) in m && m[DecimalString(i)] == xs[i]
  {
    if xs == [] then map[]
    else
      var n := |xs| - 1;
      var m := IndexedMap(xs[..n]);
      var r := m[DecimalString(n) := xs[n]];
      forall i | 0 <= i <= n
        ensures DecimalString(i) in r && r[DecimalString(i)] == xs[i]
      {
        if i < n {
          DecimalStringDistinct(i, n);
          assert xs[..n][i] == xs[i];
        }
      }
      r
  }

  /** The map has no keys besides the indices of the array. */
  lemma {:induction false} IndexedMapKeys<T>(xs: seq<T>)
    ensures IndexedMap(xs).Keys == IndexKeys(|xs|)
  {
    if xs != [] {
      var n := |xs| - 1;
      IndexedMapKeys(xs[..n]);
    }
  }

  /** Reads the first `n` items back out of an index-keyed map. */
  function FromIndexedMap<T>(m: map<string, T>, n: nat): (xs: seq<T>)
    requires forall i :: 0 <= i < n ==> DecimalString(i) in m
    ensures |xs| == n
    ensures forall i :: 0 <= i < n ==> xs[i] == m[DecimalString(i)]
  {
    seq(n, i requires 0 <= i < n => m[DecimalString(i)])
  }

  /** An array survives the trip through `arrayToIndexedMap` and back, order included. */
  lemma IndexedMapRoundTrip<T>(xs: seq<T>)
    ensures FromIndexedMap(IndexedMap(xs), |xs|) == xs
  {
  }

  /** The index-keyed map has exactly one key per item. */
  lemma {:induction false} IndexKeysSize(n: nat)
    ensures |IndexKeys(n)| == n
  {
    if n > 0 {
      IndexKeysSize(n - 1);
      NotAnIndexKey(n - 1, n - 1);
    }
  }
}
