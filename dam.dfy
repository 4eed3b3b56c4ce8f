/** The content repository as the components see it: assets with their
    renditions and metadata, resources, and the lookup of a node by its id. */
module Dam {
  import opened Wrappers
  import opened Text
  import opened Http

  const DC_TITLE := "dc:title"
  const DC_DESCRIPTION := "dc:description"
  const DC_FORMAT := "dc:format"

  /** One encoding of an asset: where it is stored, its MIME type, its byte
      count (a Java long) and its bytes. */
  datatype Rendition = Rendition(path: string, mimeType: string, size: int, data: seq<byte>)

  /** A DAM asset. `damSize` is the `dam:size` metadata (absent when the
      asset has none); `lastModified` is in milliseconds since the epoch. */
  datatype Asset = Asset(
    id: string,
    name: string,
    path: string,
    mimeType: string,
    original: Option<Rendition>,
    renditions: seq<Rendition>,
    imagePreview: Option<Rendition>,
    metadata: map<string, string>,
    damSize: Option<int>,
    lastModified: int)

  /** Asset.getMetadataValue: null when the asset has no such property. */
  function MetadataValue(asset: Asset, key: string): Option<string> {
    if key in asset.metadata then Some(asset.metadata[key]) else None
  }

  /** A resource: its name, the resource types it is of, and the asset it
      adapts to, if any. */
  datatype Resource = Resource(name: string, resourceTypes: set<string>, asset: Option<Asset>)

  /** What Session.getNodeByIdentifier does for an id it knows: return a node
      (and its path), return null, or throw a RepositoryException. An id the
      session does not know throws ItemNotFoundException. */
  datatype NodeLookup = NodeAt(path: string) | NullNode | Throws

  /** The repository behind a resource resolver. `session` is false when the
      resolver does not adapt to a JCR session; `resources` is what
      ResourceResolver.getResource answers, by path. */
  datatype Repository = Repository(
    session: bool,
    nodes: map<string, NodeLookup>,
    resources: map<string, Resource>)

  function GetResource(repo: Repository, path: string): Option<Resource> {
    if path in repo.resources then Some(repo.resources[path]) else None
  }

  /** The asset a fileReference resolves to: the resource at that path when
      it adapts to an asset. */
  function ReferencedAsset(repo: Repository, fileReference: string): Option<Asset> {
    match GetResource(repo, fileReference)
    case None => None
    case Some(r) => r.asset
  }

  /** findDownloadableResource of both download servlets: the resource at the
      path of the node with the given id. A null session, an unknown id, a
      null node, a RepositoryException and a path without a resource all give
      null. */
  function FindDownloadableResource(repo: Repository, uuid: string): (r: Option<Resource>)
    ensures !repo.session ==> r.None?
    ensures uuid !in repo.nodes || !repo.nodes[uuid].NodeAt? ==> r.None?
    ensures r.Some? ==> r.value in repo.resources.Values
    ensures repo.session && uuid in repo.nodes && repo.nodes[uuid].NodeAt? ==>
              r == GetResource(repo, repo.nodes[uuid].path)
  {
    if !repo.session then None
    else if uuid !in repo.nodes then None
    else match repo.nodes[uuid]
      case NullNode => None
      case Throws => None
      case NodeAt(path) => GetResource(repo, path)
  }

  /** The rule both view models apply to title and description: the asset's
      metadata value when the component asks for it and it is not blank,
      the authored value otherwise. */
  function FromAsset(fromAsset: bool, assetValue: Option<string>, authored: Option<string>): Option<string> {
    if fromAsset && !Blank(assetValue) then assetValue else authored
  }
}
