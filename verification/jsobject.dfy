/**
  Plain JavaScript objects with string keys, as the converter script uses them for its
  currency list, its fallback rate table and the `rates` table it receives from the rate
  service. An object is modelled by its own enumerable properties in insertion order
  (the order `Object.keys` reports for non-numeric keys); reading a missing property gives
  `None`, the model of `undefined`.
 */
module JsObject {

  datatype Option<+T> = None | Some(value: T)

  /** True iff no property name occurs twice in the list. */
  predicate UniqueKeys<V>(o: seq<(string, V)>) {
    forall i, j :: 0 <= i < j < |o| ==> o[i].0 != o[j].0
  }

  /** Own properties of an object, in insertion order; an object never has two properties of
      the same name (`JSON.parse` keeps the last value of a repeated name in one property). */
  type Object<V> = o: seq<(string, V)> | UniqueKeys(o) witness []

  /** True iff `o` has an own property named `k`. */
  predicate HasKey<V>(o: Object<V>, k: string) {
    exists i :: 0 <= i < |o| && o[i].0 == k
  }

  /** Position of the property named `k`, or -1 when there is none. */
  function IndexOf<V>(o: Object<V>, k: string): (r: int)
    ensures -1 <= r < |o|
    ensures r >= 0 ==> o[r].0 == k && forall j :: 0 <= j < r ==> o[j].0 != k
    ensures r < 0 <==> !HasKey(o, k)
  {
    if |o| == 0 then -1
    else if o[0].0 == k then 0
    else
      var r := IndexOf(o[1..], k);
      if r < 0 then -1 else r + 1
  }

  /** `o[k]`: the value of the property named `k`, or `None` for `undefined`. */
  function Get<V>(o: Object<V>, k: string): (r: Option<V>)
    ensures r.Some? <==> HasKey(o, k)
    ensures r.Some? ==> (k, r.value) in o
  {
    var i := IndexOf(o, k);
    if i < 0 then None else Some(o[i].1)
  }

  /** `o[k] = v`: an existing property keeps its place and takes the new value; a new one
      is appended. */
  function Set<V>(o: Object<V>, k: string, v: V): (r: Object<V>)
    ensures Get(r, k) == Some(v)
    ensures forall k' :: k' != k ==> Get(r, k') == Get(o, k')
    ensures HasKey(o, k) ==> |r| == |o|
    ensures !HasKey(o, k) ==> r == o + [(k, v)]
  {
    var i := IndexOf(o, k);
    if i < 0 then
      var r := o + [(k, v)];
      assert r[|o|].0 == k;
      assert forall k' :: k' != k ==> IndexOf(r, k') == IndexOf(o, k') by {
        forall k' | k' != k ensures IndexOf(r, k') == IndexOf(o, k') {
          if IndexOf(o, k') >= 0 {
            assert r[IndexOf(o, k')].0 == k';
          }
        }
      }
      r
    else
      var r := o[i := (k, v)];
      assert r[i].0 == k;
      assert forall k' :: k' != k ==> IndexOf(r, k') == IndexOf(o, k') by {
        forall k' | k' != k ensures IndexOf(r, k') == IndexOf(o, k') {
          if IndexOf(o, k') >= 0 {
            assert r[IndexOf(o, k')].0 == k';
          }
          if IndexOf(r, k') >= 0 {
            assert o[IndexOf(r, k')].0 == k';
          }
        }
      }
      r
  }

  /** Assigns every property of `src`, in order, onto `target`. */
  function SpreadInto<V>(target: Object<V>, src: Object<V>): Object<V>
    decreases |src|
  {
    if |src| == 0 then target
    else SpreadInto(Set(target, src[0].0, src[0].1), src[1..])
  }

  /** `{ ...o }`: a fresh object holding the own properties of `o`. */
  function Spread<V>(o: Object<V>): Object<V> {
    SpreadInto([], o)
  }

  /** Spreading `src` onto `target` appends it, when no name repeats across both. */
  lemma {:induction false} SpreadIntoAppends<V>(target: Object<V>, src: Object<V>)
    requires UniqueKeys(target + src)
    ensures SpreadInto(target, src) == target + src
    decreases |src|
  {
    if |src| > 0 {
      var all := target + src;
      assert all[|target|] == src[0];
      assert forall j :: 0 <= j < |target| ==> all[j] == target[j];
      var next := target + [src[0]];
      assert Set(target, src[0].0, src[0].1) == next;
      assert next + src[1..] == all;
      SpreadIntoAppends(next, src[1..]);
    }
  }

  /** A spread copy of an object is equal to the original. */
  lemma SpreadCopies<V>(o: Object<V>)
    ensures Spread(o) == o
  {
    assert [] + o == o;
    SpreadIntoAppends([], o);
  }
}
