/** The host engine as seen by a primary asset label: the asset registry,
    the asset manager and the collection manager, reduced to the queries
    the label makes. Their internals are not part of this model, so each
    query is an uninterpreted total function. */
module AssetHost {
  import opened Wrappers

  /** A content directory such as "/Game/Characters" (`FDirectoryPath::Path`
      or a long package path). */
  type DirPath = string

  /** A canonical asset path (`FTopLevelAssetPath`): package plus asset name. */
  datatype AssetPath = AssetPath(packageName: string, assetName: string)

  /** A raw asset-registry record (`FAssetData`). */
  datatype AssetRecord = AssetRecord(packageName: string, assetName: string, assetClass: string)

  /** A raw object reference stored in a collection (`FSoftObjectPath`). */
  datatype ObjectRef = ObjectRef(path: string)

  /** The host services the update reads.
      - `managerValid`: whether the asset-manager singleton exists.
      - `assetsUnder(d)`: the registry's recursive listing of directory `d`.
      - `resolve(rec)`: the manager's canonical path for a record, `None` when null.
      - `collectionMembers(n)`: the members of collection `n` across all share types.
      - `lookup(ref)`: the registry record for a collection member. */
  datatype Host = Host(
    managerValid: bool,
    assetsUnder: DirPath -> seq<AssetRecord>,
    resolve: AssetRecord -> Option<AssetPath>,
    collectionMembers: string -> seq<ObjectRef>,
    lookup: ObjectRef -> AssetRecord)

  /** Some asset the registry lists under `dir` resolves to `p`. */
  ghost predicate ListedUnder(host: Host, dir: DirPath, p: AssetPath)
  {
    exists rec :: rec in host.assetsUnder(dir) && host.resolve(rec) == Some(p)
  }

  /** `p` is reachable, through a non-null resolution, from some directory of `dirs`. */
  ghost predicate ListedUnderAny(host: Host, dirs: seq<DirPath>, p: AssetPath)
  {
    exists d :: d in dirs && ListedUnder(host, d, p)
  }
}
