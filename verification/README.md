# FeatureKit flag evaluator, modelled in Dafny

FeatureKit answers "is flag X on?" for an app. It holds an ordered list of *feature stores*.
Each store has a name, a numeric `order` and a map from flag key to flag value. A flag value
is either a boolean or a version string. The evaluator also keeps a cache of answers.

A query goes as follows:
- With caching on, a cached answer is returned as it is.
- Otherwise the first store in list order that defines the key decides.
- A boolean value is the answer.
- A version string *gates* the flag: the flag is on when the app's version is at or below the
  gate's version.
- The decision is cached when caching is on.
- A key that no store defines answers the caller's fallback and is not cached.

Adding a store is an upsert by name. It empties the cache, removes the first store of the
same name, appends the new store and sorts the list by `order`.

The model is functional. The evaluator is an immutable `Kit` value and every operation is a
pure function from `Kit` to `Kit` (or to an `Answer` carrying the decision and the next
`Kit`). The modules follow the program's structure:

- `Flags`: the two kinds of flag value and their `bool()`/`string()` views.
- `Stores`: the store record and the list operations of the upsert (find first, remove first
  of a name, sort by order).
- `Versions`: version strings, their parsing and precedence. `Numerals` and `Text` are its
  helpers (decimal numerals; splitting on `.`).
- `FeatureKit`: the evaluator state and its operations. It also holds `Evaluate`, an
  independent uncached reference walk over the stores. `CacheIsTransparent` proves that the
  cache never changes an answer.
- `Scenarios`: the cases of the library's test file, stated over the model.

The `Version` package the library imports is not part of this model. Its behaviour is an
assumption here:
- a version is a `(major, minor, patch)` triple written `MAJOR.MINOR.PATCH`, with canonical
  decimal numerals (no leading zeros, as in section 2 of Semantic Versioning 2.0.0);
- versions are ordered by precedence as in section 11 of that standard, without pre-release
  or build identifiers;
- `.null` is `0.0.0`.

`stores()` is the field `Kit.stores`. The `shouldCache` switch is the field
`Kit.shouldCache`, which callers may set.

The `order` of a store is a `Float` in the source and a `real` here. The sort in the source
(`sort(by:)`) does not promise stability. The model sorts with a stable insertion sort, but
its contracts promise only sortedness and permutation.

## Model

| member | source | states |
|---|---|---|
| Flags.AsBool | FeatureKit/Extensions.swift:22-33 | `bool()` is non-nil exactly for a Bool conformance and then returns the value itself; for a String it is nil |
| Flags.AsString | FeatureKit/Extensions.swift:19-30 | `string()` is non-nil exactly for a String conformance and then returns the string itself; for a Bool it is nil |
| Flags.ExactlyOneView | FeatureKit/Extensions.swift:13-34 | every flag value answers exactly one of `bool()` and `string()`, so the "neither" return is unreachable |
| Flags.ViewsDetermineValue | FeatureKit/Extensions.swift:13-16 | the two views together determine the flag value |
| Versions.Parse | FeatureKit/FeatureKit.swift:26 | a string that parses is the canonical text of the version it yields |
| Versions.ParseIffFormat | FeatureKit/FeatureKit.swift:26 | a string parses to `v` if and only if it is the canonical text of `v` (parse and format are inverse) |
| Versions.ParseOrNull | FeatureKit/FeatureKit.swift:25-28 | an unparseable string becomes `Null`; a parseable one becomes the version it spells |
| Versions.LeIsTotalOrder | FeatureKit/FeatureKit.swift:120 | the comparison `<=` is reflexive, antisymmetric, transitive and total |
| Versions.NullIsLeast | FeatureKit/FeatureKit.swift:119-120 | `Null` is at or below every version, and only `Null` is at or below `Null` |
| Stores.FirstIndex | FeatureKit/FeatureKit.swift:65-67 | the found index holds the first element passing the test, and with none found no element passes |
| Stores.RemoveFirstNamed | FeatureKit/FeatureKit.swift:65-71 | with no store of the name the list is unchanged; otherwise exactly the first store of that name is removed |
| Stores.RemoveFirstNamedUnique | FeatureKit/FeatureKit.swift:65-71 | with distinct names, no store of the removed name is left and the names stay distinct |
| Stores.RemoveFirstNamedNames | FeatureKit/FeatureKit.swift:65-71 | removing the first store of a name removes no other name |
| Stores.Insert | FeatureKit/FeatureKit.swift:74-76 | inserting into a sorted list keeps it sorted, adds exactly the one store, and keeps names distinct when the new name is fresh |
| Stores.SortByOrder | FeatureKit/FeatureKit.swift:74-76 | the result is sorted non-decreasing by `order`, is a permutation of the input, and keeps names distinct |
| Stores.Upsert | FeatureKit/FeatureKit.swift:65-76 | the result is sorted and a permutation of (old list minus its first same-named store) plus the new store; the count is unchanged on a name match and one more otherwise; the names are the old ones plus the new one; with distinct names before, names stay distinct and the new store is the only bearer of its name |
| Stores.UpsertLeastIsFirst | FeatureKit/FeatureKit.swift:73-76 | a store whose order is below every existing store's ends up first |
| FeatureKit.Init | FeatureKit/FeatureKit.swift:31-42 | a new evaluator has no stores, an empty cache and caching on; its app version is the parsed bundle version or `Null` |
| FeatureKit.IsCacheEmpty | FeatureKit/FeatureKit.swift:48-50 | true exactly when no key is cached |
| FeatureKit.AddFeatureFlags | FeatureKit/FeatureKit.swift:62-77 | the cache is empty afterwards whatever it held; the stores become the upsert of the new store; sortedness with distinct names is preserved |
| FeatureKit.FlushCache | FeatureKit/FeatureKit.swift:80-82 | the cache is empty afterwards; stores, app version and caching switch are untouched |
| FeatureKit.FlushIdempotent | FeatureKit/FeatureKit.swift:80-82 | flushing twice equals flushing once |
| FeatureKit.CacheFlag | FeatureKit/FeatureKit.swift:84-90 | with caching off nothing changes; with it on exactly the one key is set to the value and other entries stay |
| FeatureKit.Feature | FeatureKit/FeatureKit.swift:93-132 | a cached key with caching on returns the cached value whatever the fallback and changes nothing; otherwise the answer is the uncached walk's; stores never change; the key is cached only when some store defines it and caching is on; an undefined key returns the fallback with the state unchanged |
| FeatureKit.Resolve | FeatureKit/FeatureKit.swift:110-124 | a Bool value is its own answer; a version string answers whether `appVersion <= ParseOrNull(s)`, so an app at 0.0.0 passes every gate |
| FeatureKit.Evaluate | FeatureKit/FeatureKit.swift:104-131 | with no store defining the key the answer is the fallback; otherwise the answer is the value of a store that defines it |
| FeatureKit.EvaluateFirstMatch | FeatureKit/FeatureKit.swift:104-125 | the first store that defines the key decides: a Bool as is, a version string as `appVersion <= ParseOrNull(s)` |
| FeatureKit.EvaluateUndefined | FeatureKit/FeatureKit.swift:129-131 | a key no store defines evaluates to the fallback |
| FeatureKit.EvaluateIgnoresLater | FeatureKit/FeatureKit.swift:104-116 | stores after one defining the key are never consulted |
| FeatureKit.EvaluateDefinedIgnoresFallback | FeatureKit/FeatureKit.swift:93-125 | a defined key's answer does not depend on the fallback |
| FeatureKit.CacheIsTransparent | FeatureKit/FeatureKit.swift:96-125 | with a coherent cache, `feature` answers what the uncached walk answers, and the cache stays coherent |
| FeatureKit.FeatureRepeatable | FeatureKit/FeatureKit.swift:96-113 | asking twice gives the same answer and the same state as asking once |
| FeatureKit.AddedFirstStoreDecides | FeatureKit/FeatureKit.swift:62-76 | after adding a store whose order is below all others, it decides every key it defines |
| FeatureKit.UnparseableAppPassesEveryGate | FeatureKit/FeatureKit.swift:25-28 | with an unparseable bundle version, every version gate is on |
| FeatureKit.UnparseableGateOnlyPassesNull | FeatureKit/FeatureKit.swift:119-120 | an unparseable gate is on only for the `Null` app version |
| Scenarios.AppVersionParses | FeatureKitTests/FeatureKitTests.swift:45 | "5.27.0" reads as 5.27.0 |
| Scenarios.MajorGateReads | FeatureKitTests/FeatureKitTests.swift:18 | "6.48.0" reads as 6.48.0 |
| Scenarios.DisabledGateReads | FeatureKitTests/FeatureKitTests.swift:19 | "1.0.1" reads as 1.0.1 |
| Scenarios.SplitInvalidGate | FeatureKitTests/FeatureKitTests.swift:20 | "1,0.0" does not parse |
| Scenarios.AddToEmpty | FeatureKit/FeatureKit.swift:73-76 | adding a store to an evaluator without stores gives that store alone |
| Scenarios.DefaultKitShape | FeatureKitTests/FeatureKitTests.swift:79-80 | a new evaluator for "5.27.0" with the Default store added holds that store alone, nothing cached, caching on |
| Scenarios.AddingStoresCounts | FeatureKitTests/FeatureKitTests.swift:61-76 | adding AsyncStore gives two stores; adding Default again keeps two |
| Scenarios.DefaultDecides | FeatureKitTests/FeatureKitTests.swift:79-82 | with Default alone, each key it defines is resolved from it against 5.27.0 |
| Scenarios.TrueFlag | FeatureKitTests/FeatureKitTests.swift:78-87 | "flag-1" is on |
| Scenarios.FalseFlag | FeatureKitTests/FeatureKitTests.swift:89-98 | "flag-1-disabled" is off |
| Scenarios.GateAtAppVersion | FeatureKitTests/FeatureKitTests.swift:100-106 | gate "5.27.0" is on for app 5.27.0 |
| Scenarios.GateAboveAppVersion | FeatureKitTests/FeatureKitTests.swift:108-110 | gate "6.48.0" is on for app 5.27.0 |
| Scenarios.GateBelowAppVersion | FeatureKitTests/FeatureKitTests.swift:113-122 | gate "1.0.1" is off for app 5.27.0 |
| Scenarios.UnparseableGate | FeatureKitTests/FeatureKitTests.swift:20 | gate "1,0.0" reads as `Null` and is off for app 5.27.0 |
| Scenarios.UndefinedKey | FeatureKitTests/FeatureKitTests.swift:124-133 | an undefined key answers the fallback and leaves the evaluator unchanged; with the default fallback it answers off |
| Scenarios.AsyncStoreOverrides | FeatureKitTests/FeatureKitTests.swift:145-156 | adding AsyncStore in front of Default empties the cache and turns "flag-1" off |
| Scenarios.NewStoreOverridesCachedAnswer | FeatureKitTests/FeatureKitTests.swift:135-173 | "flag-1" is on and cached, then adding AsyncStore empties the cache and the next query answers off |

## Left out

- Logging: the `logger` switch, `log` and its `print` (FeatureKit/FeatureKit.swift:36, 52-57, 88, 105) are output only and do not affect answers.
- The private `id` field of a store (FeatureKit/FeatureKit.swift:13) is never read.
- The private `fallbackValue` field (FeatureKit/FeatureKit.swift:31) is never read.
- The internals of the `Version` package (its parser, `.null`, pre-release and build precedence): the package is not part of this model. It is modelled as strict `MAJOR.MINOR.PATCH` triples, with `Null` as 0.0.0.
- `Float` semantics of `order` (NaN, rounding): `order` is a `real`.
- Stability of the sort: only sortedness and permutation are promised, since `sort(by:)` does not promise stability.
- Unicode canonical equivalence of strings: Swift compares store names (FeatureKit/FeatureKit.swift:66) and flag keys (FeatureKit/FeatureKit.swift:97, 106) by canonical equivalence, while the model compares them code point by code point. For a name written in two canonically equivalent spellings (a precomposed "é" against "e" plus a combining accent), the model's upsert keeps both stores where the program replaces one, so the count grows instead of staying the same; likewise `Feature` misses a key spelled differently from the stored one and answers the fallback. Some spellings without any combining character are canonically equivalent too (OHM SIGN U+2126 against GREEK CAPITAL LETTER OMEGA U+03A9, ANGSTROM SIGN U+212B against U+00C5, a precomposed Hangul syllable against its conjoining jamo), with the same consequences. Names and keys in Unicode Normalization Form C (every one in the test file is ASCII, so in NFC) behave the same in both.
- Thread safety: the class has no synchronisation, and the model assumes single-threaded use.
- The performance `measure` blocks of the test file: they time calls and state nothing new. Their repeated cached query is covered by `FeatureKit.FeatureRepeatable`.
