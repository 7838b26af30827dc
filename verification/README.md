# Primary asset label: bundle recompute

A model of the engine's primary asset label (`UPrimaryAssetLabel`), an
editor-time object that decides which content assets belong to a label. On
each recompute it lists the assets under the label's own directory and
under a list of explicitly configured directories, removes every asset
reachable from the configured exclusion directories, resolves the members
of an optional named collection, writes up to three named bundles
(`Directory`, `ExplicitDirectories`, `Collection`) into the label's bundle
data, and records the label's packaging rules (priority, apply-recursively)
in the asset manager's rule table under the label's primary-asset identity.
All of this is skipped when the asset manager does not exist.

The host services are parameters, gathered in `AssetHost.Host`:

- `managerValid` stands for the asset-manager validity check.
- `assetsUnder(dir)` is the asset registry's recursive directory listing.
- `resolve(record)` is the asset manager's canonical path for a record. `None` stands for a null path.
- `collectionMembers(name)` is the collection manager's member list across all share types.
- `lookup(ref)` is the registry's record for a collection member.

Every decision the label itself makes is stated over their answers.

Modules:

- `Wrappers`: `Option`.
- `Sequences`: the in-order subsequence relation.
- `AssetHost`: asset paths, registry records and the host queries. It also holds the reachability predicates `ListedUnder` and `ListedUnderAny`, which serve as reference definitions.
- `Bundles`: the exclusion set and the three bundle lists.
- `PrimaryAssetLabel`: the label configuration, its constructor defaults, the map-entry overwrite both host writes use, and the update itself.
- `LabelProperties`: properties of one update, stated over the host's answers.

Three behaviours of the code are worth stating plainly:

- The explicit-directories bundle is the concatenation, in configured order, of each directory's filtered listing. An asset reachable from two configured directories appears twice.
- Exclusion keeps each listing's enumeration order and its repeats, and drops only the excluded paths.
- The parent-class recompute runs before the availability check. So "nothing changes when the manager is missing" holds of the state after that parent call.

## Model

| member | source | states |
|---|---|---|
| PrimaryAssetLabel.BundleName.Name | Engine/Source/Runtime/Engine/Private/PrimaryAssetLabel.cpp:17-21 | the three bundles are named "Directory", "Collection" and "ExplicitDirectories", and no two of them share a name |
| Bundles.Resolutions | Engine/Source/Runtime/Engine/Private/PrimaryAssetLabel.cpp:87-94 | a path is in the resolved listing iff some listed record resolves non-null to it; never longer than the listing |
| Bundles.ExclusionSet | Engine/Source/Runtime/Engine/Private/PrimaryAssetLabel.cpp:79-95 | a path is excluded iff some asset under some exclusion directory resolves to it |
| Bundles.WithoutExcluded | Engine/Source/Runtime/Engine/Private/PrimaryAssetLabel.cpp:101-104 | removing excluded paths keeps order, keeps every occurrence of a non-excluded path and no occurrence of an excluded one |
| Bundles.FilteredListing | Engine/Source/Runtime/Engine/Private/PrimaryAssetLabel.cpp:97-105 | the filtered listing contains no excluded path, and a path is in it iff it is not excluded and some listed record resolves to it |
| Bundles.FilteredListingIsResolveThenExclude | Engine/Source/Runtime/Engine/Private/PrimaryAssetLabel.cpp:97-105 | the one-pass filter equals resolving every record first and then removing the excluded paths |
| Bundles.FilteredListingKeepsOrderAndCounts | Engine/Source/Runtime/Engine/Private/PrimaryAssetLabel.cpp:97-105 | the filtered listing is a subsequence of the resolved listing, and each non-excluded path occurs in it exactly as often as in the resolved listing |
| Bundles.NoExclusionsKeepsEveryResolution | Engine/Source/Runtime/Engine/Private/PrimaryAssetLabel.cpp:97-105 | with an empty exclusion set the filter drops only null resolutions |
| Bundles.ExplicitDirectoriesPaths | Engine/Source/Runtime/Engine/Private/PrimaryAssetLabel.cpp:132-147 | the explicit list contains no excluded path, and a path is in it iff it is not excluded and reachable from some configured directory |
| Bundles.ExplicitDirectoriesConcatenate | Engine/Source/Runtime/Engine/Private/PrimaryAssetLabel.cpp:132-147 | the explicit list of `a + b` is the list of `a` followed by the list of `b`, so configured directory order is kept |
| Bundles.SharedAssetRepeats | Engine/Source/Runtime/Engine/Private/PrimaryAssetLabel.cpp:132-147 | a non-excluded path reachable from two configured directories occurs at least twice |
| Bundles.CollectionPaths | Engine/Source/Runtime/Engine/Private/PrimaryAssetLabel.cpp:154-167 | a path is in the collection list iff some member looks up to a record that resolves to it; never longer than the member list |
| Bundles.CollectionPathsConcatenate | Engine/Source/Runtime/Engine/Private/PrimaryAssetLabel.cpp:158-167 | the collection list of `a + b` is the list of `a` followed by the list of `b`, so member order is kept |
| PrimaryAssetLabel.NewLabel | Engine/Source/Runtime/Engine/Private/PrimaryAssetLabel.cpp:23-31 | a new label does not label its own directory, is not a runtime label, and has priority 0 without recursive application |
| PrimaryAssetLabel.Overwrite | Engine/Source/Runtime/Engine/Private/PrimaryAssetLabel.cpp:107 | a bundle write replaces the named entry wholesale (the rule push at lines 174-175 writes the same way); the key set grows by that key only and every other entry is untouched |
| PrimaryAssetLabel.UpdateAssetBundleData | Engine/Source/Runtime/Engine/Private/PrimaryAssetLabel.cpp:34-176 | without an asset manager the state is unchanged. Otherwise each of the three bundles is written iff its condition holds (own-directory flag, non-empty explicit directories, a named collection) and is left as it was otherwise. A bundle under any other name, such as one the parent class wrote, is untouched. The label's rules replace its identity's entry, other identities are unchanged, and this does not depend on which bundles were written |
| LabelProperties.DirectoryBundleIsExactFilter | Engine/Source/Runtime/Engine/Private/PrimaryAssetLabel.cpp:71-108 | the Directory bundle has no path an exclusion directory reaches. It holds exactly the own-directory paths not excluded, as a subsequence of the resolved listing. Each such path keeps its full multiplicity, and no path occurs more often than in the resolved listing |
| LabelProperties.ExplicitBundleMembers | Engine/Source/Runtime/Engine/Private/PrimaryAssetLabel.cpp:111-150 | the ExplicitDirectories bundle holds exactly the paths some configured directory reaches and no exclusion directory reaches |
| LabelProperties.ExplicitBundleKeepsDirectoryOrder | Engine/Source/Runtime/Engine/Private/PrimaryAssetLabel.cpp:132-149 | splitting the configured directories at any position `k` splits the ExplicitDirectories bundle into the paths of the first `k` directories followed by the paths of the rest |
| LabelProperties.ExplicitBundleKeepsRepeats | Engine/Source/Runtime/Engine/Private/PrimaryAssetLabel.cpp:132-149 | a non-excluded path reachable from two configured directories appears at least twice in the ExplicitDirectories bundle |
| LabelProperties.CollectionBundleIgnoresExclusions | Engine/Source/Runtime/Engine/Private/PrimaryAssetLabel.cpp:152-171 | every member that resolves is in the Collection bundle even if excluded, and the exclusion directories do not affect that bundle |
| LabelProperties.UpdateIsIdempotent | Engine/Source/Runtime/Engine/Private/PrimaryAssetLabel.cpp:34-176 | a second recompute with the same host and configuration changes nothing, because every write overwrites wholesale |
| LabelProperties.FreshLabelOnlyPushesRules | Engine/Source/Runtime/Engine/Private/PrimaryAssetLabel.cpp:23-31 | a freshly constructed label writes no bundle, and a successful update only records priority 0, non-recursive, under its identity |
| LabelProperties.ExcludedSubdirectoryScenario | Engine/Source/Runtime/Engine/Private/PrimaryAssetLabel.cpp:79-107 | labelling "/A" (holding a1 and a2) while excluding "/A/sub" (holding a2) gives the Directory bundle [a1] |

## Left out

- The parent-class recompute (`Super::UpdateAssetBundleData`) is not modelled. The input state is the state that call leaves.
- Paths and names are taken as canonical `FName` values. Engine names compare without regard to case. The model compares strings exactly, so it assumes the host hands back one spelling per asset. A collection name that the engine treats as `NAME_None` ("None", or the empty name) is represented only by `None`.
- The asset registry, the asset manager's path resolution and the collection manager are uninterpreted parameters. How they enumerate, recurse, order or deduplicate is outside the model.
- Package-name handling is not modelled. That covers the long package path of the label's outermost package, `FName` construction, and the primary-asset identity. The own directory and the identity are inputs to the update.
- The exclusion set is computed inside each of the first two branches in the source. The model uses one function for both, because the host queries are pure here.
- `FPrimaryAssetRules` is reduced to the two fields the constructor sets, priority and apply-recursively. The other fields pass through the rule push unchanged in the source and are not represented.
- A new label's empty explicit and exclusion lists and absent collection come from the class's member defaults, which are declared outside the modelled file.
- The commented-out earlier own-directory implementation, editor-only build macros, reflection and the singleton accessors are not modelled.
- Threading is not modelled. The recompute runs on the editor's main thread only.
