# LibraryManager JSON catalog and cache service, in Dafny

This project models two cooperating parts of LibraryManager:

- **The JSON catalog resolver** (`JsonCatalog`). It holds one mutable catalog snapshot, `_libraryGroups`. Every query that passes its argument checks reloads the snapshot through the cache service, then answers from it:
  - ranked search;
  - asset and version listing;
  - library resolution into a file→is-default map;
  - latest-version lookup;
  - completion sets for the editor.
- **The cache service** (`CustomCacheService`). It downloads a URL into a cache file with a bounded number of attempts. It offers two read policies: web first with a cache fallback, and cache first with a web fallback.

The modules are:

- `Wrappers`: `Option` stands for a .NET `null`; `Result` stands for a thrown exception.
- `OrdinalText`: the `String` operations the resolver uses.
  - `Equals`, `StartsWith`, `EndsWith` and `IndexOf` with `OrdinalIgnoreCase`, over an ASCII case fold.
  - `IndexOf(char)` and `TrimEnd`.
- `Linq`: `Take`, `FirstOrDefault`, `Select` of a pair's item, and the stable `OrderByDescending`.
  - `OrderByDescending` is an insertion sort.
  - It is proved sorted, a permutation, and stable: the pairs with one score keep their input order.
- `Ranking`: ranked search over any scoring function.
  - Keep the scored items, then order them by descending score.
  - Proved: the result is exactly the hits, scores do not increase, and ties keep catalog order.
- `Json`: the resolver.
  - `Group` is a class: the catalog entry whose `DisplayInfosTask` the search assigns, here the field `displayInfos`.
  - `JsonCatalog` is a class whose field `libraryGroups` the methods reassign.
  - Pure functions give the meaning of each query; each method is proved equal to them.
- `Cache`: the cache service.
  - The environment is state: a file system `path → (contents, last write time)`, a millisecond clock, a count of transport calls, and the download log.
  - The transport is a scripted function from (url, call number) to an outcome: a body, a `ResourceDownloadException`, or another exception.

What one catalog load yields is an input, `Fetch`. It is "the cache service threw" or "the text parsed to this group list, or to null". Each `EnsureCatalogAsync` call takes one such input.

The model follows the code on these points:
- Every query that passes its argument checks reloads the snapshot; nothing is memoized. `GetLatestVersion` with an empty name and `GetLibraryAsync` with an empty name or version return before any load.
- A load overwrites the snapshot unless it is cancelled or the cache service throws; then the snapshot keeps its old value.
- Version completion of a name not in the catalog makes no second load.
- The cancellation token is read again at every retry pause (`Task.Delay(200, token)`). A token cancelled during the retries ends the download at the next pause.
- Version completion lists every asset's version, duplicates included.
- `GetAssetsAsync` ignores its group name and converts the whole catalog.
- An asset's default file is the group's display name. So a resolved library has a true flag only for a file named exactly like the group.

`PrefixHitCanRankBelowSubstringHit` records a property of the scoring as written. The prefix tier scores 20 plus the term length minus the length of the normalized name, which has no lower bound. So a long name that starts with the term can rank below a short name that merely contains it.

## Model

| member | source | states |
|---|---|---|
| `OrdinalText.EqualsIgnoreCase` | src/LibraryManager/Providers/json/JsonCatalog.cs:249 | True exactly when both strings have the same length and agree character by character up to ASCII case. |
| `OrdinalText.StartsWithIgnoreCase` | src/LibraryManager/Providers/json/JsonCatalog.cs:251 | True exactly when the prefix occurs at index 0, ignoring case; then the string contains it. |
| `OrdinalText.EndsWithIgnoreCase` | src/LibraryManager/Providers/json/JsonCatalog.cs:263 | True exactly when the suffix fits and occurs at the last possible index, ignoring case; then the string contains it. |
| `OrdinalText.IndexOfIgnoreCase` | src/LibraryManager/Providers/json/JsonCatalog.cs:253 | The result is never below -1. It is a match index exactly when the term occurs (ignoring case), and then it is the first occurrence; otherwise it is -1. |
| `OrdinalText.IndexOfChar` | src/LibraryManager/Providers/json/JsonCatalog.cs:64 | -1 exactly when the character is absent; otherwise its first position. |
| `OrdinalText.TrimEnd` | src/LibraryManager/Providers/json/JsonCatalog.cs:265-267 | The result is a prefix of the input whose last character is not a trim character, and every removed character is one. |
| `Linq.Take` | src/LibraryManager/Providers/json/JsonCatalog.cs:139 | `Take(n)` is the prefix whose length is n, clamped between 0 and the sequence length. |
| `Linq.FirstOrDefault` | src/LibraryManager/Providers/json/JsonCatalog.cs:176 | Null exactly when nothing matches; otherwise the element at the first matching index. |
| `Linq.OrderByDescending` | src/LibraryManager/Providers/json/JsonCatalog.cs:257 | The output's scores never increase, it is a permutation of the input, and for every score the pairs with that score are in input order (stability). |
| `Linq.Items` | src/LibraryManager/Providers/json/JsonCatalog.cs:257 | `Select(t => t.Item2)` keeps the length and takes each pair's item at the same position. |
| `Linq.ItemsPermutation` | src/LibraryManager/Providers/json/JsonCatalog.cs:257 | Rearranging (score, item) pairs rearranges the selected items the same way. |
| `Ranking.ScoredHits` | src/LibraryManager/Providers/json/JsonCatalog.cs:243-255 | Every collected pair is an item of the list with its own score. |
| `Ranking.Hits` | src/LibraryManager/Providers/json/JsonCatalog.cs:245-255 | An item is kept exactly when it gets a score, and there are never more hits than items. |
| `Ranking.RankedPermutesHits` | src/LibraryManager/Providers/json/JsonCatalog.cs:257 | The ranked list holds the hits, each as many times as the list does. |
| `Ranking.RankedNonIncreasing` | src/LibraryManager/Providers/json/JsonCatalog.cs:257 | Every ranked item has a score, and scores never increase along the ranking. |
| `Ranking.RankedIsStable` | src/LibraryManager/Providers/json/JsonCatalog.cs:257 | For every score, the ranked items with that score appear in list order. |
| `Json.NormalizedGroupName` | src/LibraryManager/Providers/json/JsonCatalog.cs:261-271 | A name not ending in "js" (any case) is unchanged. Otherwise the result is a prefix of the name minus "js", does not end in '-' or '.', and drops only those characters. |
| `Json.Score` | src/LibraryManager/Providers/json/JsonCatalog.cs:249-254 | A group gets a score exactly when its display name contains the term, ignoring case. The exact-name and prefix tiers are occurrences at index 0. |
| `Json.ScoreOfLongerPlainName` | src/LibraryManager/Providers/json/JsonCatalog.cs:249-254 | For a name without the "js" ending that is longer than the term, a prefix hit scores 20 plus the term length minus the name length, and a substring-only hit scores 1. |
| `Json.TestTermScores` | test/LibraryManager.Test/Providers/json/JsonCatalogTest.cs:165-171 | For term "test", "test-library" scores 12, "test-library2" scores 11 and "sampleLibrary" is no hit. |
| `Json.TestSearchOrder` | test/LibraryManager.Test/Providers/json/JsonCatalogTest.cs:165-171 | On the test catalog, the search for "test" is exactly "test-library" then "test-library2". |
| `Json.TestNameHits` | test/LibraryManager.Test/Providers/json/JsonCatalogTest.cs:165-171 | On the test's catalog ("sampleLibrary", "test-library", "test-library2") the name hits for "test" are "test-library" then "test-library2". |
| `Json.TestNameCompletion` | test/LibraryManager.Test/Providers/json/JsonCatalogTest.cs:165-171 | Completing "test" with the caret at 0 spans 0 to 4 and lists two names, "test-library" first, with the id of its own name and version. |
| `Json.PrefixHitCanRankBelowSubstringHit` | src/LibraryManager/Providers/json/JsonCatalog.cs:251-254 | A prefix hit of "a" on a 23-letter name scores -2, below the 1 of a substring hit. |
| `Json.SortedSearch` | src/LibraryManager/Providers/json/JsonCatalog.cs:241-257 | The sorted search result holds the hits, each as often as the catalog does, so it is never longer than the catalog. |
| `Json.SearchFindsMatches` | src/LibraryManager/Providers/json/JsonCatalog.cs:245-257 | The sorted search result holds exactly the groups whose name contains the term, each as often as the catalog does. |
| `Json.SearchScoresNonIncreasing` | src/LibraryManager/Providers/json/JsonCatalog.cs:249-257 | Every result group is a hit, and scores never increase along the result. |
| `Json.SearchIsStable` | src/LibraryManager/Providers/json/JsonCatalog.cs:257 | Groups with equal scores appear in catalog order. |
| `Json.SearchResult` | src/LibraryManager/Providers/json/JsonCatalog.cs:137-144 | At most `maxHits` groups. For an empty term, the first `min(maxHits, n)` catalog groups. Otherwise the first `maxHits` groups of the ranking, all of it when `maxHits` is at least the catalog size. |
| `Json.SearchResultMatches` | src/LibraryManager/Providers/json/JsonCatalog.cs:137-144 | A search returns catalog groups only. For a non-empty term each contains the term, and a term that no name contains finds nothing. |
| `Json.AttachVersionListers` | src/LibraryManager/Providers/json/JsonCatalog.cs:146-150 | Every returned group's version lister is bound to its own display name. |
| `Json.AssetsOf` | src/LibraryManager/Providers/json/JsonCatalog.cs:345-370 | Null exactly when some group has no file list. Otherwise one asset per group, in order, with the group's version and files and the display name as default file. |
| `Json.Versions` | src/LibraryManager/Providers/json/JsonCatalog.cs:299 | One version per asset, in order, duplicates kept. |
| `Json.FileMap` | src/LibraryManager/Providers/json/JsonCatalog.cs:186 | The dictionary exists exactly when no file repeats. Its keys are the files, and a value is true exactly when the key equals the default file. |
| `Json.ResolveLibrary` | src/LibraryManager/Providers/json/JsonCatalog.cs:173-194 | On success the name, version and provider are as given, and the file map is that of the first asset with exactly this version. It fails exactly when the assets are null, no asset has the version, or that asset repeats a file. |
| `Json.LatestOf` | src/LibraryManager/Providers/json/JsonCatalog.cs:219-238 | The first group with exactly this name decides: its version when that is non-empty, null when it is empty. Null when no group has the name. |
| `Json.NamePart` | src/LibraryManager/Providers/json/JsonCatalog.cs:64-65 | The name is the prefix before the first '@', or the whole value when there is none. |
| `Json.NameMode` | src/LibraryManager/Providers/json/JsonCatalog.cs:64-70 | The caret is in name mode exactly when the value has no '@' or the caret is not past the end of the name part. |
| `Json.NameHitsContainName` | src/LibraryManager/Providers/json/JsonCatalog.cs:70-72 | Name completions come from the reloaded catalog and contain the name part. With no hit limit, every reloaded group containing the name part is listed. An empty name part lists the whole catalog in order. |
| `Json.JsonCatalog.constructor` | src/LibraryManager/Providers/json/JsonCatalog.cs:36-43 | A new resolver has no snapshot. |
| `Json.JsonCatalog.EnsureCatalog` | src/LibraryManager/Providers/json/JsonCatalog.cs:273-293 | Cancelled or thrown: false, snapshot unchanged. Otherwise the snapshot becomes the parse result, and the result is whether it is non-null. |
| `Json.JsonCatalog.ScoredEntry` | src/LibraryManager/Providers/json/JsonCatalog.cs:247-254 | One group's entry in the scored list: the group with its rank for the term, or nothing when the name does not contain the term. |
| `Json.JsonCatalog.SortedSearchResult` | src/LibraryManager/Providers/json/JsonCatalog.cs:241-258 | The scoring loop and sort yield the stable ranking of the snapshot. |
| `Json.JsonCatalog.Search` | src/LibraryManager/Providers/json/JsonCatalog.cs:128-153 | Empty when the load fails, `SearchResult` of the reloaded catalog otherwise. Hits get a version lister; other groups are untouched. |
| `Json.JsonCatalog.GetAssets` | src/LibraryManager/Providers/json/JsonCatalog.cs:303-322 | Null when the load fails, otherwise the assets of the whole catalog, whatever the group name. |
| `Json.JsonCatalog.GetLibraryVersions` | src/LibraryManager/Providers/json/JsonCatalog.cs:295-300 | Null when the load fails or the assets are null; otherwise the asset versions in order. |
| `Json.JsonCatalog.ConvertToAssets` | src/LibraryManager/Providers/json/JsonCatalog.cs:345-370 | The conversion loop yields `AssetsOf` of the groups, and null for a null list. |
| `Json.JsonCatalog.GetLibrary` | src/LibraryManager/Providers/json/JsonCatalog.cs:164-196 | An empty name or version fails at once. Otherwise the result is `ResolveLibrary` of the reloaded assets. Every failure is `InvalidLibraryException` for the naming scheme's id. |
| `Json.JsonCatalog.GetLatestVersion` | src/LibraryManager/Providers/json/JsonCatalog.cs:207-239 | Null for an empty name or a failed load; otherwise `LatestOf` the reloaded catalog. |
| `Json.JsonCatalog.NameCompletions` | src/LibraryManager/Providers/json/JsonCatalog.cs:74-84 | One completion per hit, in order: the display name, the naming scheme's id of name and version, and the description. |
| `Json.JsonCatalog.VersionCompletions` | src/LibraryManager/Providers/json/JsonCatalog.cs:101-110 | One completion per asset, in order: the version and the naming scheme's id of name and version. |
| `Json.JsonCatalog.NameCompletionList` | src/LibraryManager/Providers/json/JsonCatalog.cs:74-84 | The name completion loop builds `NameCompletions` of the hits. |
| `Json.JsonCatalog.VersionCompletionList` | src/LibraryManager/Providers/json/JsonCatalog.cs:101-110 | The version completion loop builds `VersionCompletions` of the assets. |
| `Json.JsonCatalog.CompleteName` | src/LibraryManager/Providers/json/JsonCatalog.cs:70-86 | Name completion is the completions of an unbounded search for the name. The snapshot is reloaded, the hits get their version listers, and no other group is touched. |
| `Json.JsonCatalog.CompleteVersion` | src/LibraryManager/Providers/json/JsonCatalog.cs:99-110 | Version completion of a known name lists one completion per asset of the reloaded catalog, or is null when that asset list is null. The snapshot is reloaded. |
| `Json.JsonCatalog.CompletionSpec` | src/LibraryManager/Providers/json/JsonCatalog.cs:58-118 | Start plus length is the value's length. Name mode holds iff there is no '@' or the caret is not past it. A known name in version mode starts after its '@' and lists the versions. An unknown name gives an empty whole-span set. Null assets in version mode fail. |
| `Json.JsonCatalog.GetLibraryCompletionSet` | src/LibraryManager/Providers/json/JsonCatalog.cs:51-119 | The default set when the first load fails, `CompletionSpec` otherwise. The snapshot is reloaded again by the name search or by the asset listing of a known name. Only name-mode hits get version listers. |
| `Cache.Run` | src/LibraryManager/Cache/CustomCacheService.cs:46-66 | A run from attempt `i` makes between 1 and `attempts - i` transport calls. The token is read at the pause after each swallowed failure. |
| `Cache.RunEnds` | src/LibraryManager/Cache/CustomCacheService.cs:46-66 | Every call but the last was a swallowed download failure. The last decides: a delivery is written; another exception propagates; a download failure is rethrown only on the last attempt, else the run ends at a pause that finds the token cancelled. Every earlier pause found it not cancelled, so the run ends at the first cancelled pause. |
| `Cache.RunSucceedsIff` | src/LibraryManager/Cache/CustomCacheService.cs:46-54 | A run writes the file exactly when some call within the attempts delivers, and every earlier call failed to download and its pause found the token not cancelled. |
| `Cache.Resource` | src/LibraryManager/Cache/CustomCacheService.cs:69-79 | Cancelled throws with no call. Exactly one call is made iff the file is missing or older than the expiry. A fresh file is read with no call. A success returns the file's contents. |
| `Cache.StaleReadFails` | src/LibraryManager/Cache/CustomCacheService.cs:73-75 | A stale read's single attempt returns the body, or fails exactly as its transport call does. |
| `Cache.UriWithCacheFallback` | src/LibraryManager/Cache/CustomCacheService.cs:99-120 | The result is that of `GetResourceAsync` with the default expiry. The exception is a download failure with a cache file, which returns the cached contents. So a download failure is rethrown when no cache file exists, and success, cancellation and other exceptions pass through. Files and calls are those of the read. |
| `Cache.NoCacheFileNoFallback` | src/LibraryManager/Cache/CustomCacheService.cs:106-116 | Without a cache file, the read makes one call. It rethrows `ResourceDownloadException` exactly when that call failed to download. A delivered body is written to the cache file and returned. |
| `Cache.CacheFallbackServesCachedFile` | src/LibraryManager/Cache/CustomCacheService.cs:106-117 | With a cache file, an uncancelled fallback read succeeds or fails only on another exception. A failed download returns the cached contents. |
| `Cache.CachedFileWithWebFallback` | src/LibraryManager/Cache/CustomCacheService.cs:123-136 | An existing cache file is returned whatever its age, with no call. A missing one is read exactly as `GetResourceAsync` with the default expiry, with one download call when not cancelled. |
| `Cache.CustomCacheService.constructor` | src/LibraryManager/Cache/CustomCacheService.cs:27-30 | A new service starts with the given file system and clock, no calls and an empty log. |
| `Cache.CustomCacheService.DownloadToFile` | src/LibraryManager/Cache/CustomCacheService.cs:39-67 | Fewer than one attempt throws `ArgumentException` with no call. Otherwise the calls, the file written and the error are those of `Run` with the token read at each pause, and the clock advances 200 ms per swallowed failure. |
| `Cache.CustomCacheService.GetResource` | src/LibraryManager/Cache/CustomCacheService.cs:69-79 | Result, files and call count are those of `Resource`; the clock and log are unchanged. |
| `Cache.CustomCacheService.DownloadFileIfNecessary` | src/LibraryManager/Cache/CustomCacheService.cs:88-95 | An existing destination is left alone, with no log and no call. A missing one is logged, then downloaded with five attempts as `Run` says, the token read at each pause. |
| `Cache.CustomCacheService.GetContentsFromUriWithCacheFallback` | src/LibraryManager/Cache/CustomCacheService.cs:99-120 | Result, files and call count are those of `UriWithCacheFallback`. |
| `Cache.CustomCacheService.GetContentsFromCachedFileWithWebRequestFallback` | src/LibraryManager/Cache/CustomCacheService.cs:123-136 | Result, files and call count are those of `CachedFileWithWebFallback`. |

## Left out

- JSON deserialization (`ConvertToLibraryGroups`, Newtonsoft) is not modelled. Its result is the input `Fetch`: a group list, or null.
- The cache service call inside `EnsureCatalogAsync`, and the catalog URL and cache file path, are not modelled. The call's outcome is the same `Fetch` input, so the two components are connected only through that input.
- The `includePreReleases` branch of `GetLatestVersion` is not modelled: `SemanticVersion.Parse`/`Max` are outside this model.
- `ILibraryNamingScheme.GetLibraryId` is an uninterpreted function, `namingScheme`.
- `RefreshCacheAsync` is modelled only as its per-item step: the fan-out of `ParallelUtility.ForEachAsync`, with up to ten concurrent downloads, is concurrency.
- The cache service has no cancellation inside the transport or the file reads. A transport that observes the token reports it as "another exception".
- `FileHelpers.SafeWriteToFileAsync` is part of the transport outcome. A write failure is "another exception". The file's last-write time is the clock at the write.
- Only the retry pauses advance the clock; the time that downloads and reads take is not modelled.
- `Debug.Write` logging, the unused static `CacheFolderValue`, and the `_underTest` flag are not modelled.
- Null strings and null group entries are not modelled. `string.IsNullOrEmpty` is a test for the empty string.
- Case-insensitive comparison folds ASCII letters only; Unicode case folding is not modelled.
- `JsonProviderFactory.cs`, `JsonLibrary.cs` and `JsonLibraryGroup.cs` are not part of this model. The group has exactly the fields the resolver reads.
- The `catch` in `GetAssetsAsync` that rethrows as `InvalidLibraryException` is not modelled: `ConvertToAssets` catches every exception itself, so that handler cannot run.
- Strings are sequences of Unicode scalar values. .NET `Length`, `IndexOf` and `Substring` count UTF-16 code units. For names or values with characters outside the Basic Multilingual Plane, the prefix score and the completion span differ from the source's.
