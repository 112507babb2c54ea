/** The flag evaluator: an ordered list of stores, a cache of answers, and the lookup that
    decides whether a flag is on. Every operation is a pure transition on `Kit`. */
module FeatureKit {
  import opened Wrappers
  import opened Versions
  import opened Flags
  import opened Stores

  /** The evaluator's state. */
  datatype Kit = Kit(
    stores: seq<Store>,
    cache: map<string, bool>,
    appVersion: Version,
    shouldCache: bool)

  /** What a flag query returns: the decision and the evaluator's state afterwards. */
  datatype Answer = Answer(enabled: bool, kit: Kit)

  /** The shape every reachable evaluator keeps: stores sorted by order, names distinct. */
  predicate Valid(k: Kit) {
    Sorted(k.stores) && UniqueNames(k.stores)
  }

  /** Some store defines `key`. */
  predicate Defines(stores: seq<Store>, key: string) {
    exists i :: 0 <= i < |stores| && key in stores[i].flags
  }

  /** The decision one flag value makes for an app at version `app`: a boolean flag is its own
      decision; a version gate is on when the app's version is at or below the gate's. */
  function Resolve(v: FlagValue, app: Version): (r: bool)
    ensures AsBool(v).Some? ==> (r <==> AsBool(v).value)
    ensures AsString(v).Some? ==> (r <==> Le(app, ParseOrNull(AsString(v).value)))
    ensures AsString(v).Some? && app == Null ==> r
  {
    match v
    case BoolFlag(b) => b
    case VersionFlag(s) => Le(app, ParseOrNull(s))
  }

  /** The uncached answer, as a walk over the stores: the first store that defines `key`
      decides, and with none `fallback` is the answer. */
  function Evaluate(stores: seq<Store>, app: Version, key: string, fallback: bool): (r: bool)
    ensures !Defines(stores, key) ==> r == fallback
    ensures Defines(stores, key) ==>
      exists i :: 0 <= i < |stores| && key in stores[i].flags && r == Resolve(stores[i].flags[key], app)
  {
    if |stores| == 0 then fallback
    else if key in stores[0].flags then Resolve(stores[0].flags[key], app)
    else Evaluate(stores[1..], app, key, fallback)
  }

  /** Every cached answer belongs to a defined key and is the uncached answer for it. */
  predicate Coherent(k: Kit) {
    forall key :: key in k.cache ==>
      Defines(k.stores, key) && k.cache[key] == Evaluate(k.stores, k.appVersion, key, false)
  }

  /** A new evaluator for an app whose bundle version is `bundleVersion`: no stores, an empty
      cache, caching on. */
  function Init(bundleVersion: string): (k: Kit)
    ensures |k.stores| == 0 && IsCacheEmpty(k) && k.shouldCache
    ensures k.appVersion == ParseOrNull(bundleVersion)
    ensures Valid(k) && Coherent(k)
  {
    Kit([], map[], ParseOrNull(bundleVersion), true)
  }

  /** True when nothing is cached. */
  function IsCacheEmpty(k: Kit): (r: bool)
    ensures r <==> forall key :: key !in k.cache
  {
    k.cache.Keys == {}
  }

  /** Adds `s`, replacing the first store of the same name, re-sorts by order, and empties the
      cache. */
  function AddFeatureFlags(k: Kit, s: Store): (k': Kit)
    ensures IsCacheEmpty(k')
    ensures k'.appVersion == k.appVersion && k'.shouldCache == k.shouldCache
    ensures k'.stores == Upsert(k.stores, s)
    ensures Valid(k) ==> Valid(k')
    ensures Coherent(k')
  {
    Kit(Upsert(k.stores, s), map[], k.appVersion, k.shouldCache)
  }

  /** Empties the cache; the stores are untouched. */
  function FlushCache(k: Kit): (k': Kit)
    ensures IsCacheEmpty(k')
    ensures k'.stores == k.stores && k'.appVersion == k.appVersion && k'.shouldCache == k.shouldCache
    ensures Valid(k) ==> Valid(k')
    ensures Coherent(k')
  {
    k.(cache := map[])
  }

  /** Flushing twice is flushing once. */
  lemma FlushIdempotent(k: Kit)
    ensures FlushCache(FlushCache(k)) == FlushCache(k)
  {
  }

  /** Records `value` for `key` when caching is on; otherwise nothing changes. */
  function CacheFlag(k: Kit, key: string, value: bool): (k': Kit)
    ensures k'.stores == k.stores && k'.appVersion == k.appVersion && k'.shouldCache == k.shouldCache
    ensures !k.shouldCache ==> k' == k
    ensures k.shouldCache ==> k'.cache.Keys == k.cache.Keys + {key} && k'.cache[key] == value
    ensures forall other :: other in k.cache && other != key ==> other in k'.cache && k'.cache[other] == k.cache[other]
  {
    if !k.shouldCache then k else k.(cache := k.cache[key := value])
  }

  /** Whether flag `key` is on. A cached answer is returned as it is when caching is on;
      otherwise the first store that defines `key` decides and the decision is cached; when no
      store defines `key` the answer is `fallback` and nothing is cached. */
  function Feature(k: Kit, key: string, fallback: bool := false): (a: Answer)
    ensures a.kit.stores == k.stores && a.kit.appVersion == k.appVersion
    ensures a.kit.shouldCache == k.shouldCache
    ensures k.shouldCache && key in k.cache ==> a == Answer(k.cache[key], k)
    ensures !(k.shouldCache && key in k.cache) ==>
      a.enabled == Evaluate(k.stores, k.appVersion, key, fallback)
    ensures !Defines(k.stores, key) && !(k.shouldCache && key in k.cache) ==> a.kit == k
    ensures Defines(k.stores, key) && k.shouldCache ==>
      a.kit.cache.Keys == k.cache.Keys + {key} && a.kit.cache[key] == a.enabled
    ensures forall other :: other in k.cache && other != key ==> other in a.kit.cache && a.kit.cache[other] == k.cache[other]
    ensures !k.shouldCache ==> a.kit == k
  {
    if k.shouldCache && key in k.cache then
      Answer(k.cache[key], k)
    else
      match FirstIndex(k.stores, (s: Store) => key in s.flags)
      case None =>
        EvaluateUndefined(k.stores, k.appVersion, key, fallback);
        Answer(fallback, k)
      case Some(i) =>
        var value := k.stores[i].flags[key];
        EvaluateFirstMatch(k.stores, k.appVersion, key, fallback, i);
        if AsBool(value).Some? then
          var enabled := AsBool(value).value;
          Answer(enabled, CacheFlag(k, key, enabled))
        else if AsString(value).Some? then
          var enabled := Le(k.appVersion, ParseOrNull(AsString(value).value));
          Answer(enabled, CacheFlag(k, key, enabled))
        else
          assert false;
          Answer(fallback, k)
  }

  /** First match wins: the first store that defines `key` decides, whatever later stores
      say. */
  lemma {:induction false} EvaluateFirstMatch(stores: seq<Store>, app: Version, key: string, fallback: bool, i: nat)
    requires i < |stores| && key in stores[i].flags
    requires forall j :: 0 <= j < i ==> key !in stores[j].flags
    ensures Evaluate(stores, app, key, fallback) == Resolve(stores[i].flags[key], app)
  {
    if i > 0 {
      EvaluateFirstMatch(stores[1..], app, key, fallback, i - 1);
    }
  }

  /** A key no store defines evaluates to the fallback. */
  lemma {:induction false} EvaluateUndefined(stores: seq<Store>, app: Version, key: string, fallback: bool)
    requires forall j :: 0 <= j < |stores| ==> key !in stores[j].flags
    ensures Evaluate(stores, app, key, fallback) == fallback
  {
    if |stores| > 0 {
      EvaluateUndefined(stores[1..], app, key, fallback);
    }
  }

  /** Stores after one that defines `key` are never consulted. */
  lemma {:induction false} EvaluateIgnoresLater(front: seq<Store>, back: seq<Store>, app: Version, key: string, fallback: bool)
    requires Defines(front, key)
    ensures Evaluate(front + back, app, key, fallback) == Evaluate(front, app, key, fallback)
  {
    if key !in front[0].flags {
      assert (front + back)[1..] == front[1..] + back;
      var i :| 0 <= i < |front| && key in front[i].flags;
      assert key in front[1..][i - 1].flags;
      EvaluateIgnoresLater(front[1..], back, app, key, fallback);
    }
  }

  /** For a defined key the fallback does not matter. */
  lemma {:induction false} EvaluateDefinedIgnoresFallback(stores: seq<Store>, app: Version, key: string, f1: bool, f2: bool)
    requires Defines(stores, key)
    ensures Evaluate(stores, app, key, f1) == Evaluate(stores, app, key, f2)
  {
    if key !in stores[0].flags {
      var i :| 0 <= i < |stores| && key in stores[i].flags;
      assert key in stores[1..][i - 1].flags;
      EvaluateDefinedIgnoresFallback(stores[1..], app, key, f1, f2);
    }
  }

  /** The cache never changes an answer: on a coherent evaluator `Feature` answers what the
      uncached walk answers, and the evaluator stays coherent. */
  lemma CacheIsTransparent(k: Kit, key: string, fallback: bool)
    requires Coherent(k)
    ensures Feature(k, key, fallback).enabled == Evaluate(k.stores, k.appVersion, key, fallback)
    ensures Coherent(Feature(k, key, fallback).kit)
  {
    var a := Feature(k, key, fallback);
    if k.shouldCache && key in k.cache {
      EvaluateDefinedIgnoresFallback(k.stores, k.appVersion, key, fallback, false);
    } else if Defines(k.stores, key) {
      EvaluateDefinedIgnoresFallback(k.stores, k.appVersion, key, fallback, false);
      forall other | other in a.kit.cache
        ensures Defines(a.kit.stores, other)
        ensures a.kit.cache[other] == Evaluate(a.kit.stores, a.kit.appVersion, other, false)
      {
        if other != key {
          assert other in k.cache;
        }
      }
    }
  }

  /** Asking the same question twice gives the same answer and leaves the evaluator as the
      first question left it. */
  lemma FeatureRepeatable(k: Kit, key: string, fallback: bool)
    ensures Feature(Feature(k, key, fallback).kit, key, fallback) == Feature(k, key, fallback)
  {
    var a := Feature(k, key, fallback);
    if !(k.shouldCache && key in k.cache) && Defines(k.stores, key) && k.shouldCache {
      assert key in a.kit.cache;
    }
  }

  /** A store added with an order below every existing store's decides every key it
      defines. */
  lemma AddedFirstStoreDecides(k: Kit, s: Store, key: string, fallback: bool)
    requires forall i :: 0 <= i < |k.stores| ==> s.order < k.stores[i].order
    requires key in s.flags
    ensures Feature(AddFeatureFlags(k, s), key, fallback).enabled == Resolve(s.flags[key], k.appVersion)
  {
    var k' := AddFeatureFlags(k, s);
    UpsertLeastIsFirst(k.stores, s);
    assert key !in k'.cache;
    EvaluateFirstMatch(k'.stores, k'.appVersion, key, fallback, 0);
  }

  /** A version gate read from an unparseable bundle version is satisfied by every gate. */
  lemma UnparseableAppPassesEveryGate(bundleVersion: string, gate: string)
    requires Parse(bundleVersion).None?
    ensures Resolve(VersionFlag(gate), ParseOrNull(bundleVersion))
  {
    NullIsLeast(ParseOrNull(gate));
  }

  /** An unparseable gate is satisfied only by the `Null` app version. */
  lemma UnparseableGateOnlyPassesNull(app: Version, gate: string)
    requires Parse(gate).None?
    ensures Resolve(VersionFlag(gate), app) <==> app == Null
  {
    NullIsLeast(app);
  }
}
