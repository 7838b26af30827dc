/** A primary asset label: its configuration, its constructor defaults and
    the recompute of its asset bundles and packaging rules. */
module PrimaryAssetLabel {
  import opened Wrappers
  import opened AssetHost
  import opened Bundles

  /** The three bundles a label writes. The bundle data itself is keyed by
      name, and may hold bundles of other names that the label never
      touches. */
  datatype BundleName = Directory | Collection | ExplicitDirectories
  {
    /** The bundle's name as the engine spells it; the three names differ,
        so the label's three writes never land on one another's entry. */
    function Name(): (n: string)
      ensures |n| > 0
      ensures n == "Directory" <==> this == Directory
      ensures n == "Collection" <==> this == Collection
      ensures n == "ExplicitDirectories" <==> this == ExplicitDirectories
    {
      match this
      case Directory => "Directory"
      case Collection => "Collection"
      case ExplicitDirectories => "ExplicitDirectories"
    }
  }

  /** Packaging rules (`FPrimaryAssetRules`), reduced to the fields the
      label sets. */
  datatype Rules = Rules(priority: int, applyRecursively: bool)

  /** A primary-asset identity (`FPrimaryAssetId`). */
  datatype AssetId = AssetId(primaryAssetType: string, primaryAssetName: string)

  /** The label's configuration. `collectionName` is `None` for `NAME_None`. */
  datatype Label = Label(
    labelAssetsInMyDirectory: bool,
    isRuntimeLabel: bool,
    explicitDirectories: seq<DirPath>,
    excludeDirectories: seq<DirPath>,
    collectionName: Option<string>,
    rules: Rules)

  /** What the update writes: the label's bundle data, keyed by bundle name,
      and the asset manager's rule table. */
  datatype State = State(bundles: map<string, seq<AssetPath>>, rules: map<AssetId, Rules>)

  /** `k` is absent from both maps or maps to the same value in both. */
  ghost predicate SameEntry<K, V>(m: map<K, V>, m': map<K, V>, k: K)
  {
    (k !in m && k !in m') || (k in m && k in m' && m[k] == m'[k])
  }

  /** A freshly constructed label: no own-directory labelling, editor-only,
      priority 0, not recursive, and (as C++ member defaults) no explicit or
      excluded directories and no collection. */
  function NewLabel(): (l: Label)
    ensures !l.labelAssetsInMyDirectory && !l.isRuntimeLabel
    ensures l.rules.priority == 0 && !l.rules.applyRecursively
    ensures l.explicitDirectories == [] && l.excludeDirectories == [] && l.collectionName == None
  {
    Label(false, false, [], [], None, Rules(0, false))
  }

  /** A wholesale write of one map entry, which is how both host writes
      behave: `SetBundleAssets` replaces a bundle's asset list, and
      `SetPrimaryAssetRules` replaces an identity's rules. Every other key
      keeps its entry. */
  function Overwrite<K(!new), V>(m: map<K, V>, k: K, v: V): (r: map<K, V>)
    ensures k in r && r[k] == v
    ensures r.Keys == m.Keys + {k}
    ensures forall other :: other != k ==> SameEntry(m, r, other)
  {
    m[k := v]
  }

  /** Recomputes the label's bundles and pushes its rules. `ownDirectory` is
      the long package path of the directory holding the label, `id` its
      primary-asset identity, and `s` the state left by the parent class. */
  function UpdateAssetBundleData(host: Host, config: Label, ownDirectory: DirPath, id: AssetId, s: State): (s': State)
    // the availability guard: nothing is written
    ensures !host.managerValid ==> s' == s
    // the Directory bundle is written exactly when own-directory labelling is on
    ensures host.managerValid && config.labelAssetsInMyDirectory ==>
              Directory.Name() in s'.bundles
              && s'.bundles[Directory.Name()]
                 == FilteredListing(host, host.assetsUnder(ownDirectory), ExclusionSet(host, config.excludeDirectories))
    ensures !config.labelAssetsInMyDirectory ==> SameEntry(s.bundles, s'.bundles, Directory.Name())
    // the ExplicitDirectories bundle is written exactly when some directory is configured
    ensures host.managerValid && |config.explicitDirectories| > 0 ==>
              ExplicitDirectories.Name() in s'.bundles
              && s'.bundles[ExplicitDirectories.Name()]
                 == ExplicitDirectoriesPaths(host, config.explicitDirectories, ExclusionSet(host, config.excludeDirectories))
    ensures |config.explicitDirectories| == 0 ==> SameEntry(s.bundles, s'.bundles, ExplicitDirectories.Name())
    // the Collection bundle is written exactly when a collection is named
    ensures host.managerValid && config.collectionName.Some? ==>
              Collection.Name() in s'.bundles
              && s'.bundles[Collection.Name()] == CollectionPaths(host, host.collectionMembers(config.collectionName.value))
    ensures config.collectionName.None? ==> SameEntry(s.bundles, s'.bundles, Collection.Name())
    // a bundle under any other name, such as one the parent class wrote, survives
    ensures forall k :: k != Directory.Name() && k != ExplicitDirectories.Name() && k != Collection.Name() ==>
              SameEntry(s.bundles, s'.bundles, k)
    // the rule push: this label's identity gets its rules, nothing else changes
    ensures host.managerValid ==> id in s'.rules && s'.rules[id] == config.rules
    ensures forall other :: other != id ==> SameEntry(s.rules, s'.rules, other)
  {
    if !host.managerValid then s
    else
      var b1 :=
        if config.labelAssetsInMyDirectory then
          var excluded := ExclusionSet(host, config.excludeDirectories);
          Overwrite(s.bundles, Directory.Name(), FilteredListing(host, host.assetsUnder(ownDirectory), excluded))
        else s.bundles;
      var b2 :=
        if |config.explicitDirectories| > 0 then
          var excluded := ExclusionSet(host, config.excludeDirectories);
          Overwrite(b1, ExplicitDirectories.Name(), ExplicitDirectoriesPaths(host, config.explicitDirectories, excluded))
        else b1;
      var b3 :=
        match config.collectionName
        case Some(name) => Overwrite(b2, Collection.Name(), CollectionPaths(host, host.collectionMembers(name)))
        case None => b2;
      State(b3, Overwrite(s.rules, id, config.rules))
  }
}
