/** Properties of one recompute of a primary asset label, stated over the
    host's answers rather than over the helper functions that compute the
    bundles. */
module LabelProperties {
  import opened Wrappers
  import opened Sequences
  import opened AssetHost
  import opened Bundles
  import opened PrimaryAssetLabel

  /** The Directory bundle is exactly the in-order filter of the label's own
      directory: a path is in it iff some asset there resolves to it and no
      exclusion directory reaches it; it is a subsequence of the resolved
      listing (so no path occurs in it more often than there), and every
      non-excluded path keeps all its occurrences. */
  lemma DirectoryBundleIsExactFilter(host: Host, config: Label, ownDirectory: DirPath, id: AssetId, s: State)
    requires host.managerValid && config.labelAssetsInMyDirectory
    ensures var b := UpdateAssetBundleData(host, config, ownDirectory, id, s).bundles;
            && Directory.Name() in b
            && (forall p :: p in b[Directory.Name()] ==> !ListedUnderAny(host, config.excludeDirectories, p))
            && (forall p :: (p in b[Directory.Name()])
                            <==> (ListedUnder(host, ownDirectory, p) && !ListedUnderAny(host, config.excludeDirectories, p)))
            && IsSubsequence(b[Directory.Name()], Resolutions(host, host.assetsUnder(ownDirectory)))
            && (forall p :: multiset(b[Directory.Name()])[p]
                            == if ListedUnderAny(host, config.excludeDirectories, p) then 0
                               else multiset(Resolutions(host, host.assetsUnder(ownDirectory)))[p])
            && multiset(b[Directory.Name()]) <= multiset(Resolutions(host, host.assetsUnder(ownDirectory)))
  {
    var excluded := ExclusionSet(host, config.excludeDirectories);
    var listing := host.assetsUnder(ownDirectory);
    FilteredListingKeepsOrderAndCounts(host, listing, excluded);
    SubsequenceCounts(FilteredListing(host, listing, excluded), Resolutions(host, listing));
  }

  /** The ExplicitDirectories bundle follows configured directory order:
      split the configured directories at any position `k` and the bundle is
      the earlier directories' paths followed by the later directories'
      paths. */
  lemma ExplicitBundleKeepsDirectoryOrder(host: Host, config: Label, ownDirectory: DirPath, id: AssetId, s: State, k: nat)
    requires host.managerValid && 0 < |config.explicitDirectories| && k <= |config.explicitDirectories|
    ensures var bundles := UpdateAssetBundleData(host, config, ownDirectory, id, s).bundles;
            var dirs := config.explicitDirectories;
            var excluded := ExclusionSet(host, config.excludeDirectories);
            && ExplicitDirectories.Name() in bundles
            && bundles[ExplicitDirectories.Name()]
               == ExplicitDirectoriesPaths(host, dirs[..k], excluded) + ExplicitDirectoriesPaths(host, dirs[k..], excluded)
  {
    var dirs := config.explicitDirectories;
    assert dirs == dirs[..k] + dirs[k..];
    ExplicitDirectoriesConcatenate(host, dirs[..k], dirs[k..], ExclusionSet(host, config.excludeDirectories));
  }

  /** A path that two configured directories reach, and no exclusion
      directory reaches, appears at least twice in the ExplicitDirectories
      bundle: repeats across directories are kept. */
  lemma ExplicitBundleKeepsRepeats(host: Host, config: Label, ownDirectory: DirPath, id: AssetId, s: State,
                                   i: nat, j: nat, p: AssetPath)
    requires host.managerValid
    requires i < j < |config.explicitDirectories|
    requires ListedUnder(host, config.explicitDirectories[i], p) && ListedUnder(host, config.explicitDirectories[j], p)
    requires !ListedUnderAny(host, config.excludeDirectories, p)
    ensures var bundles := UpdateAssetBundleData(host, config, ownDirectory, id, s).bundles;
            ExplicitDirectories.Name() in bundles && multiset(bundles[ExplicitDirectories.Name()])[p] >= 2
  {
    SharedAssetRepeats(host, config.explicitDirectories, ExclusionSet(host, config.excludeDirectories), i, j, p);
  }

  /** The ExplicitDirectories bundle never holds a path an exclusion
      directory reaches, and holds every other path a configured directory
      reaches. */
  lemma ExplicitBundleMembers(host: Host, config: Label, ownDirectory: DirPath, id: AssetId, s: State)
    requires host.managerValid && |config.explicitDirectories| > 0
    ensures var b := UpdateAssetBundleData(host, config, ownDirectory, id, s).bundles;
            && ExplicitDirectories.Name() in b
            && forall p :: (p in b[ExplicitDirectories.Name()])
                           <==> (ListedUnderAny(host, config.explicitDirectories, p)
                                 && !ListedUnderAny(host, config.excludeDirectories, p))
  {
  }

  /** The Collection bundle is not filtered by the exclusion set: every
      member that resolves is in it, excluded or not, and changing the
      exclusion directories never changes it. */
  lemma CollectionBundleIgnoresExclusions(host: Host, config: Label, excludeDirectories: seq<DirPath>,
                                          ownDirectory: DirPath, id: AssetId, s: State)
    requires host.managerValid && config.collectionName.Some?
    ensures var b := UpdateAssetBundleData(host, config, ownDirectory, id, s).bundles;
            var members := host.collectionMembers(config.collectionName.value);
            var b' := UpdateAssetBundleData(host, config.(excludeDirectories := excludeDirectories), ownDirectory, id, s).bundles;
            && Collection.Name() in b && Collection.Name() in b'
            && b'[Collection.Name()] == b[Collection.Name()]
            && (forall m :: m in members && host.resolve(host.lookup(m)).Some? ==>
                              host.resolve(host.lookup(m)).value in b[Collection.Name()])
  {
  }

  /** Recomputing twice gives what recomputing once gives: every written
      entry depends only on the host and the configuration. */
  lemma UpdateIsIdempotent(host: Host, config: Label, ownDirectory: DirPath, id: AssetId, s: State)
    ensures var s1 := UpdateAssetBundleData(host, config, ownDirectory, id, s);
            UpdateAssetBundleData(host, config, ownDirectory, id, s1) == s1
  {
  }

  /** A freshly constructed label writes no bundle; a successful update
      only records its default rules under its identity. */
  lemma FreshLabelOnlyPushesRules(host: Host, ownDirectory: DirPath, id: AssetId, s: State)
    ensures var s' := UpdateAssetBundleData(host, NewLabel(), ownDirectory, id, s);
            && s'.bundles == s.bundles
            && (host.managerValid ==> s'.rules == s.rules[id := Rules(0, false)])
  {
  }

  /** A host with directory "/A" holding assets a1 and a2, and its
      sub-directory "/A/sub" holding a2; every record resolves. */
  function ScenarioHost(): Host
  {
    var a1 := AssetRecord("/A/a1", "a1", "DataAsset");
    var a2 := AssetRecord("/A/sub/a2", "a2", "DataAsset");
    Host(
      true,
      (d: DirPath) => if d == "/A" then [a1, a2] else if d == "/A/sub" then [a2] else [],
      (rec: AssetRecord) => Some(AssetPath(rec.packageName, rec.assetName)),
      (name: string) => [],
      (ref: ObjectRef) => AssetRecord(ref.path, ref.path, ""))
  }

  /** Labelling "/A" while excluding "/A/sub" yields the Directory bundle
      [a1]: a2 is listed under "/A" too, but the exclusion wins. */
  lemma ExcludedSubdirectoryScenario(id: AssetId, s: State)
    ensures var config := NewLabel().(labelAssetsInMyDirectory := true, excludeDirectories := ["/A/sub"]);
            var s' := UpdateAssetBundleData(ScenarioHost(), config, "/A", id, s);
            Directory.Name() in s'.bundles && s'.bundles[Directory.Name()] == [AssetPath("/A/a1", "a1")]
  {
    var host := ScenarioHost();
    var a1 := AssetRecord("/A/a1", "a1", "DataAsset");
    var a2 := AssetRecord("/A/sub/a2", "a2", "DataAsset");
    assert host.assetsUnder("/A") == [a1, a2];
    assert host.assetsUnder("/A/sub") == [a2];
    var excluded := ExclusionSet(host, ["/A/sub"]);
    assert Resolutions(host, [a2]) == [AssetPath("/A/sub/a2", "a2")];
    assert excluded == {AssetPath("/A/sub/a2", "a2")};
    assert FilteredListing(host, [a2], excluded) == [];
    assert FilteredListing(host, [a1, a2], excluded) == [AssetPath("/A/a1", "a1")];
  }
}
