/** The check-then-load caches of `loadModel` (src/utils/upscaler.ts) and
    `loadSession` (src/utils/upscaler-onnx.ts): a `Map` consulted before a
    load, filled after a load that succeeds. Loads run one at a time. */
module Caches {
  import opened Common

  /** The value handed back, the cache afterwards, and whether a load ran. */
  datatype Loaded<K, V> = Loaded(value: V, cache: map<K, V>, created: bool)

  /** Look `key` up, loading it with `create` on a miss; a failed load
      propagates and leaves the cache as it was. */
  function Load<K(==), V>(cache: map<K, V>, key: K, create: K -> Result<V, string>): (r: Result<Loaded<K, V>, string>)
    ensures key in cache ==> r.Success? && r.value.value == cache[key] && r.value.cache == cache && !r.value.created
    ensures key !in cache ==> (r.Success? <==> create(key).Success?)
    ensures key !in cache && r.Success? ==>
      && r.value.created && r.value.value == create(key).value
      && r.value.cache == cache[key := create(key).value]
    ensures r.Success? ==> key in r.value.cache && r.value.cache[key] == r.value.value
    ensures r.Success? ==> forall k :: k in cache && k != key ==> k in r.value.cache && r.value.cache[k] == cache[k]
  {
    if key in cache then Success(Loaded(cache[key], cache, false))
    else
      var v :- create(key);
      Success(Loaded(v, cache[key := v], true))
  }

  /** A second load of the same key creates nothing and returns the value
      the first one produced. */
  lemma LoadTwice<K, V>(cache: map<K, V>, key: K, create: K -> Result<V, string>, create2: K -> Result<V, string>)
    requires Load(cache, key, create).Success?
    ensures var first := Load(cache, key, create).value;
      var second := Load(first.cache, key, create2);
      second.Success? && !second.value.created && second.value.value == first.value && second.value.cache == first.cache
  {
  }
}
