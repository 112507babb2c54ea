/** The cases the library's own tests exercise, stated as lemmas over the model: an app at
    5.27.0, a "Default" store at order 99 and an "AsyncStore" at order 1. */
module Scenarios {
  import opened Numerals
  import opened Text
  import opened Versions
  import opened Flags
  import opened Stores
  import opened FeatureKit

  const AppVersionText := "5.27.0"

  const DefaultStore := Store(99.0, "Default", map[
    "flag-1" := BoolFlag(true),
    "flag-1-disabled" := BoolFlag(false),
    "flag-2" := VersionFlag("5.27.0"),
    "flag-2-major" := VersionFlag("6.48.0"),
    "flag-2-disabled" := VersionFlag("1.0.1"),
    "flag-invalid" := VersionFlag("1,0.0")])

  const AsyncStore := Store(1.0, "AsyncStore", map[
    "flag-1" := BoolFlag(false),
    "flag-2" := VersionFlag("5.0.2"),
    "flag-invalid" := VersionFlag("lol"),
    "flag-async" := BoolFlag(true)])

  /** Reads the canonical text of `v` back as `v`. */
  lemma ReadsAs(s: string, v: Version)
    requires Format(v) == s
    ensures ParseOrNull(s) == v
  {
    ParseFormat(v);
  }

  /** The gate of "flag-2-major" reads as 6.48.0. */
  lemma MajorGateReads()
    ensures ParseOrNull("6.48.0") == Version(6, 48, 0)
  {
    assert ShowNat(48) == "48";
    assert Format(Version(6, 48, 0)) == "6.48.0";
    ReadsAs("6.48.0", Version(6, 48, 0));
  }

  /** The gate of "flag-2-disabled" reads as 1.0.1. */
  lemma DisabledGateReads()
    ensures ParseOrNull("1.0.1") == Version(1, 0, 1)
  {
    assert Format(Version(1, 0, 1)) == "1.0.1";
    ReadsAs("1.0.1", Version(1, 0, 1));
  }

  lemma AppVersionParses()
    ensures ParseOrNull(AppVersionText) == Version(5, 27, 0)
  {
    assert ShowNat(27) == "27";
    ReadsAs(AppVersionText, Version(5, 27, 0));
  }

  /** The evaluator of the tests after adding "Default" alone. */
  function DefaultKit(): Kit {
    AddFeatureFlags(Init(AppVersionText), DefaultStore)
  }

  /** Adding a store to an evaluator without stores gives that store alone. */
  lemma {:induction false} AddToEmpty(k: Kit, s: Store)
    requires |k.stores| == 0
    ensures AddFeatureFlags(k, s).stores == [s]
  {
    var stores := AddFeatureFlags(k, s).stores;
    assert multiset(stores) == multiset{s};
    assert |stores| == 1;
    assert stores[0] in multiset(stores);
  }

  /** An evaluator holding "Default" alone, with nothing cached, for an app at 5.27.0. */
  predicate DefaultOnly(k: Kit) {
    k.stores == [DefaultStore] && IsCacheEmpty(k) && k.shouldCache && k.appVersion == Version(5, 27, 0)
  }

  /** Adding "Default" to a new evaluator for 5.27.0 gives such an evaluator. */
  lemma DefaultKitShape()
    ensures DefaultOnly(DefaultKit())
  {
    AddToEmpty(Init(AppVersionText), DefaultStore);
    AppVersionParses();
  }

  /** Adding "AsyncStore" gives two stores; adding "Default" again replaces it. */
  lemma AddingStoresCounts(k: Kit)
    requires DefaultOnly(k)
    ensures |AddFeatureFlags(k, AsyncStore).stores| == 2
    ensures |AddFeatureFlags(AddFeatureFlags(k, AsyncStore), DefaultStore).stores| == 2
  {
    var k2 := AddFeatureFlags(k, AsyncStore);
    assert NameFree(k.stores, AsyncStore.name);
    assert DefaultStore.name in Names(k2.stores);
    NamesIffNotFree(k2.stores, DefaultStore.name);
  }

  /** With "Default" alone, each key it defines is resolved from it against 5.27.0. */
  lemma DefaultDecides(k: Kit, key: string, fallback: bool)
    requires DefaultOnly(k)
    requires key in DefaultStore.flags
    ensures Feature(k, key, fallback).enabled == Resolve(DefaultStore.flags[key], Version(5, 27, 0))
  {
    assert key !in k.cache;
    EvaluateFirstMatch(k.stores, k.appVersion, key, fallback, 0);
  }

  /** A boolean flag set to true is on. */
  lemma TrueFlag(k: Kit, fallback: bool)
    requires DefaultOnly(k)
    ensures Feature(k, "flag-1", fallback).enabled
  {
    DefaultDecides(k, "flag-1", fallback);
    assert DefaultStore.flags["flag-1"] == BoolFlag(true);
  }

  /** A boolean flag set to false is off. */
  lemma FalseFlag(k: Kit, fallback: bool)
    requires DefaultOnly(k)
    ensures !Feature(k, "flag-1-disabled", fallback).enabled
  {
    DefaultDecides(k, "flag-1-disabled", fallback);
    assert DefaultStore.flags["flag-1-disabled"] == BoolFlag(false);
  }

  /** A gate equal to the app's version is on. */
  lemma GateAtAppVersion(k: Kit, fallback: bool)
    requires DefaultOnly(k)
    ensures Feature(k, "flag-2", fallback).enabled
  {
    DefaultDecides(k, "flag-2", fallback);
    assert DefaultStore.flags["flag-2"] == VersionFlag("5.27.0");
    AppVersionParses();
  }

  /** A gate above the app's version is on. */
  lemma GateAboveAppVersion(k: Kit, fallback: bool)
    requires DefaultOnly(k)
    ensures Feature(k, "flag-2-major", fallback).enabled
  {
    DefaultDecides(k, "flag-2-major", fallback);
    assert DefaultStore.flags["flag-2-major"] == VersionFlag("6.48.0");
    MajorGateReads();
  }

  /** A gate below the app's version is off. */
  lemma GateBelowAppVersion(k: Kit, fallback: bool)
    requires DefaultOnly(k)
    ensures !Feature(k, "flag-2-disabled", fallback).enabled
  {
    DefaultDecides(k, "flag-2-disabled", fallback);
    assert DefaultStore.flags["flag-2-disabled"] == VersionFlag("1.0.1");
    DisabledGateReads();
  }

  /** A gate that does not parse is read as `Null`, which 5.27.0 is above: off. */
  lemma UnparseableGate(k: Kit, fallback: bool)
    requires DefaultOnly(k)
    ensures !Feature(k, "flag-invalid", fallback).enabled
  {
    DefaultDecides(k, "flag-invalid", fallback);
    assert DefaultStore.flags["flag-invalid"] == VersionFlag("1,0.0");
    SplitInvalidGate();
  }

  /** "1,0.0" has two dot-separated fields, so it is not a version. */
  lemma SplitInvalidGate()
    ensures Parse("1,0.0").None?
  {
    SplitAfterField("1,0", '.', "0");
    SplitNoSeparator("0", '.');
    assert "1,0.0" == "1,0" + ['.'] + "0";
  }

  /** An undefined key answers the fallback and caches nothing. */
  lemma UndefinedKey(k: Kit, fallback: bool)
    requires DefaultOnly(k)
    ensures Feature(k, "flag-that-doesnt-exist", fallback) == Answer(fallback, k)
    ensures !Feature(k, "flag-that-doesnt-exist").enabled
  {
    assert "flag-that-doesnt-exist" !in DefaultStore.flags;
    assert !Defines(k.stores, "flag-that-doesnt-exist");
  }

  /** Adding "AsyncStore" in front of "Default" turns "flag-1" off, whatever was cached. */
  lemma AsyncStoreOverrides(k: Kit)
    requires k.stores == [DefaultStore]
    ensures IsCacheEmpty(AddFeatureFlags(k, AsyncStore))
    ensures !Feature(AddFeatureFlags(k, AsyncStore), "flag-1", false).enabled
  {
    assert AsyncStore.flags["flag-1"] == BoolFlag(false);
    AddedFirstStoreDecides(k, AsyncStore, "flag-1", false);
  }

  /** "flag-1" is on from "Default" and cached; adding "AsyncStore", which comes first, clears
      the cache and turns it off. */
  lemma NewStoreOverridesCachedAnswer(k: Kit)
    requires DefaultOnly(k)
    ensures
      var a := Feature(k, "flag-1", false);
      var k' := AddFeatureFlags(a.kit, AsyncStore);
      && a.enabled
      && !IsCacheEmpty(a.kit)
      && IsCacheEmpty(k')
      && !Feature(k', "flag-1", false).enabled
  {
    TrueFlag(k, false);
    var a := Feature(k, "flag-1", false);
    assert "flag-1" in DefaultStore.flags;
    assert Defines(k.stores, "flag-1");
    assert "flag-1" in a.kit.cache;
    AsyncStoreOverrides(a.kit);
  }
}
