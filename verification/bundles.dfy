/** The three asset lists a primary asset label computes, each a pure
    function of the host's answers. */
module Bundles {
  import opened Wrappers
  import opened Sequences
  import opened AssetHost

  /** The non-null resolutions of `records`, in enumeration order. */
  function Resolutions(host: Host, records: seq<AssetRecord>): (r: seq<AssetPath>)
    ensures |r| <= |records|
    ensures forall p :: p in r <==> exists rec :: rec in records && host.resolve(rec) == Some(p)
  {
    if |records| == 0 then []
    else
      var rest := Resolutions(host, records[1..]);
      assert forall rec :: rec in records <==> rec == records[0] || rec in records[1..];
      match host.resolve(records[0])
      case Some(p) => [p] + rest
      case None => rest
  }

  /** The set of assets to exclude: every non-null resolution of every asset
      listed under any of `excludeDirs`. */
  function ExclusionSet(host: Host, excludeDirs: seq<DirPath>): (ex: set<AssetPath>)
    ensures forall p :: p in ex <==> ListedUnderAny(host, excludeDirs, p)
  {
    if |excludeDirs| == 0 then {}
    else
      var here := set p | p in Resolutions(host, host.assetsUnder(excludeDirs[0]));
      var rest := ExclusionSet(host, excludeDirs[1..]);
      assert forall p :: p in here <==> ListedUnder(host, excludeDirs[0], p);
      ListedUnderAnySplit(host, excludeDirs);
      here + rest
  }

  /** `paths` with every excluded element removed, the rest in order. This is
      the two-pass reading of the listing filter: resolve everything first,
      then subtract the exclusion set. */
  function WithoutExcluded(paths: seq<AssetPath>, excluded: set<AssetPath>): (r: seq<AssetPath>)
    ensures forall p :: p in r <==> p in paths && p !in excluded
    ensures forall p :: multiset(r)[p] == if p in excluded then 0 else multiset(paths)[p]
    ensures IsSubsequence(r, paths)
  {
    if |paths| == 0 then []
    else
      var rest := WithoutExcluded(paths[1..], excluded);
      assert paths == [paths[0]] + paths[1..];
      if paths[0] in excluded then
        assert |rest| > 0 ==> rest[0] != paths[0];
        rest
      else
        [paths[0]] + rest
  }

  /** One directory listing filtered the way the label filters it: each asset
      is resolved, and its path is kept when it is non-null and not
      excluded. Enumeration order is kept. */
  function FilteredListing(host: Host, records: seq<AssetRecord>, excluded: set<AssetPath>): (r: seq<AssetPath>)
    ensures forall p :: p in r <==> p !in excluded && exists rec :: rec in records && host.resolve(rec) == Some(p)
  {
    if |records| == 0 then []
    else
      var rest := FilteredListing(host, records[1..], excluded);
      assert forall rec :: rec in records <==> rec == records[0] || rec in records[1..];
      match host.resolve(records[0])
      case Some(p) => if p !in excluded then [p] + rest else rest
      case None => rest
  }

  /** Reachability from a directory list splits into its head and its tail. */
  lemma ListedUnderAnySplit(host: Host, dirs: seq<DirPath>)
    requires |dirs| > 0
    ensures forall p :: ListedUnderAny(host, dirs, p)
                        <==> ListedUnder(host, dirs[0], p) || ListedUnderAny(host, dirs[1..], p)
  {
  }

  /** The explicit-directories list: the filtered listing of each configured
      directory, concatenated in configured order. Nothing is deduplicated. */
  function ExplicitDirectoriesPaths(host: Host, dirs: seq<DirPath>, excluded: set<AssetPath>): (r: seq<AssetPath>)
    ensures forall p :: p in r <==> p !in excluded && ListedUnderAny(host, dirs, p)
  {
    if |dirs| == 0 then []
    else
      var here := FilteredListing(host, host.assetsUnder(dirs[0]), excluded);
      var rest := ExplicitDirectoriesPaths(host, dirs[1..], excluded);
      ListedUnderAnySplit(host, dirs);
      here + rest
  }

  /** The collection list: every collection member looked up in the
      registry and resolved, non-null results kept in member order. */
  function CollectionPaths(host: Host, members: seq<ObjectRef>): (r: seq<AssetPath>)
    ensures |r| <= |members|
    ensures forall p :: p in r <==> exists m :: m in members && host.resolve(host.lookup(m)) == Some(p)
  {
    if |members| == 0 then []
    else
      var rest := CollectionPaths(host, members[1..]);
      assert forall m :: m in members <==> m == members[0] || m in members[1..];
      match host.resolve(host.lookup(members[0]))
      case Some(p) => [p] + rest
      case None => rest
  }

  /** The one-pass filter equals the two-pass reading: resolve every record,
      then remove the excluded paths. */
  lemma {:induction false} FilteredListingIsResolveThenExclude(host: Host, records: seq<AssetRecord>, excluded: set<AssetPath>)
    ensures FilteredListing(host, records, excluded) == WithoutExcluded(Resolutions(host, records), excluded)
    decreases |records|
  {
    if |records| > 0 {
      FilteredListingIsResolveThenExclude(host, records[1..], excluded);
      var res := Resolutions(host, records);
      match host.resolve(records[0])
      case Some(p) =>
        assert res == [p] + Resolutions(host, records[1..]);
        assert res[1..] == Resolutions(host, records[1..]);
      case None =>
    }
  }

  /** A filtered listing is a subsequence of the resolved listing, keeps
      every occurrence of a non-excluded path and drops every excluded one. */
  lemma {:induction false} FilteredListingKeepsOrderAndCounts(host: Host, records: seq<AssetRecord>, excluded: set<AssetPath>)
    ensures IsSubsequence(FilteredListing(host, records, excluded), Resolutions(host, records))
    ensures forall p :: multiset(FilteredListing(host, records, excluded))[p]
                        == if p in excluded then 0 else multiset(Resolutions(host, records))[p]
  {
    FilteredListingIsResolveThenExclude(host, records, excluded);
  }

  /** With nothing excluded the filter keeps every non-null resolution. */
  lemma {:induction false} NoExclusionsKeepsEveryResolution(host: Host, records: seq<AssetRecord>)
    ensures FilteredListing(host, records, {}) == Resolutions(host, records)
  {
    FilteredListingIsResolveThenExclude(host, records, {});
    WithoutNothingIsIdentity(Resolutions(host, records));
  }

  /** Removing nothing leaves a path list as it is. */
  lemma {:induction false} WithoutNothingIsIdentity(paths: seq<AssetPath>)
    ensures WithoutExcluded(paths, {}) == paths
    decreases |paths|
  {
    if |paths| > 0 {
      WithoutNothingIsIdentity(paths[1..]);
    }
  }

  /** The explicit-directories list splits along the configured directory
      list: the assets of earlier directories come first. */
  lemma {:induction false} ExplicitDirectoriesConcatenate(host: Host, a: seq<DirPath>, b: seq<DirPath>, excluded: set<AssetPath>)
    ensures ExplicitDirectoriesPaths(host, a + b, excluded)
            == ExplicitDirectoriesPaths(host, a, excluded) + ExplicitDirectoriesPaths(host, b, excluded)
    decreases |a|
  {
    if |a| > 0 {
      ExplicitDirectoriesConcatenate(host, a[1..], b, excluded);
      assert (a + b)[1..] == a[1..] + b;
    } else {
      assert a + b == b;
    }
  }

  /** An asset kept by two different configured directories appears at
      least twice in the explicit-directories list. */
  lemma SharedAssetRepeats(host: Host, dirs: seq<DirPath>, excluded: set<AssetPath>, i: nat, j: nat, p: AssetPath)
    requires i < j < |dirs|
    requires ListedUnder(host, dirs[i], p) && ListedUnder(host, dirs[j], p)
    requires p !in excluded
    ensures multiset(ExplicitDirectoriesPaths(host, dirs, excluded))[p] >= 2
  {
    var front, back := dirs[..j], dirs[j..];
    assert dirs == front + back;
    ExplicitDirectoriesConcatenate(host, front, back, excluded);
    assert dirs[i] in front;
    assert ListedUnderAny(host, front, p);
    var e1 := ExplicitDirectoriesPaths(host, front, excluded);
    assert p in e1;
    assert back[0] == dirs[j];
    var e2 := ExplicitDirectoriesPaths(host, back, excluded);
    assert e2 == FilteredListing(host, host.assetsUnder(dirs[j]), excluded) + ExplicitDirectoriesPaths(host, back[1..], excluded);
    assert p in e2;
    assert multiset(e1 + e2) == multiset(e1) + multiset(e2);
  }

  /** The collection list splits along the member list, so member order is
      kept. */
  lemma {:induction false} CollectionPathsConcatenate(host: Host, a: seq<ObjectRef>, b: seq<ObjectRef>)
    ensures CollectionPaths(host, a + b) == CollectionPaths(host, a) + CollectionPaths(host, b)
    decreases |a|
  {
    if |a| > 0 {
      CollectionPathsConcatenate(host, a[1..], b);
      assert (a + b)[1..] == a[1..] + b;
    } else {
      assert a + b == b;
    }
  }
}
