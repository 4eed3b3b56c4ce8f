/** The Video component: the allow-list of MIME types and the preload default
    (the Video interface), the source value type (VideoSourceImpl), and the
    view model whose initModel picks the sources, the poster, the title, the
    description and the preload value (VideoImpl). */
module Video {
  import opened Wrappers
  import opened Text
  import opened Dam

  const PRELOAD_DEFAULT_NONE := "none"

  /** The MIME types a video source may have, in this order. */
  const ALLOWED_MIME_TYPES: seq<string> := ["video/3gpp", "video/x-flv", "video/mp4", "video/ogg", "video/webm"]

  // ---------------------------------------------------------------------
  // Sources

  /** A source of the video element: its URL and its MIME type. Built once
      and never changed. */
  datatype VideoSource = VideoSource(src: string, mimeType: string)

  /** The source for the asset itself. */
  function SourceOfAsset(asset: Asset): VideoSource {
    VideoSource(asset.path, asset.mimeType)
  }

  /** The source for one of the asset's renditions. */
  function SourceOfRendition(rendition: Rendition): VideoSource {
    VideoSource(rendition.path, rendition.mimeType)
  }

  /** The check on the asset's MIME type: not blank and on the allow-list. */
  predicate AllowedVideo(mimeType: string) {
    !IsBlank(mimeType) && mimeType in ALLOWED_MIME_TYPES
  }

  /** The blank check is implied by the allow-list, whose entries are none of
      them blank. */
  lemma AllowedVideoIsAllowList(mimeType: string)
    ensures AllowedVideo(mimeType) <==> mimeType in ALLOWED_MIME_TYPES
  {
    if mimeType in ALLOWED_MIME_TYPES {
      assert !IsWhitespace(mimeType[0]);
    }
  }

  /** The check on a rendition: its MIME type is not blank, is not the
      asset's, and is on the allow-list. */
  predicate Eligible(rendition: Rendition, assetMimeType: string) {
    !IsBlank(rendition.mimeType) && rendition.mimeType != assetMimeType && rendition.mimeType in ALLOWED_MIME_TYPES
  }

  /** The sources the rendition loop adds, in rendition order. */
  function RenditionSources(renditions: seq<Rendition>, assetMimeType: string): (sources: seq<VideoSource>)
    ensures |sources| <= |renditions|
  {
    if renditions == [] then []
    else
      var last := renditions[|renditions| - 1];
      RenditionSources(renditions[..|renditions| - 1], assetMimeType)
      + (if Eligible(last, assetMimeType) then [SourceOfRendition(last)] else [])
  }

  /** The loop is a filter: over two runs of renditions it adds the sources of
      the first, then those of the second. */
  lemma {:induction false} RenditionSourcesAppend(a: seq<Rendition>, b: seq<Rendition>, assetMimeType: string)
    ensures RenditionSources(a + b, assetMimeType) == RenditionSources(a, assetMimeType) + RenditionSources(b, assetMimeType)
    decreases |b|
  {
    if b == [] {
      assert a + b == a;
    } else {
      var last := b[|b| - 1];
      assert (a + b)[..|a + b| - 1] == a + b[..|b| - 1];
      RenditionSourcesAppend(a, b[..|b| - 1], assetMimeType);
    }
  }

  /** Every added source is that of an eligible rendition. */
  lemma {:induction false} RenditionSourcesSound(renditions: seq<Rendition>, assetMimeType: string, i: nat)
    requires i < |RenditionSources(renditions, assetMimeType)|
    ensures exists r :: r in renditions && Eligible(r, assetMimeType)
                        && RenditionSources(renditions, assetMimeType)[i] == SourceOfRendition(r)
    decreases |renditions|
  {
    var front := renditions[..|renditions| - 1];
    var last := renditions[|renditions| - 1];
    if i < |RenditionSources(front, assetMimeType)| {
      RenditionSourcesSound(front, assetMimeType, i);
      var r :| r in front && Eligible(r, assetMimeType) && RenditionSources(front, assetMimeType)[i] == SourceOfRendition(r);
      assert r in renditions;
    } else {
      assert last in renditions;
    }
  }

  /** Every eligible rendition's source is added. */
  lemma {:induction false} RenditionSourcesComplete(renditions: seq<Rendition>, assetMimeType: string, r: Rendition)
    requires r in renditions && Eligible(r, assetMimeType)
    ensures SourceOfRendition(r) in RenditionSources(renditions, assetMimeType)
    decreases |renditions|
  {
    var front := renditions[..|renditions| - 1];
    var last := renditions[|renditions| - 1];
    if r != last {
      assert renditions == front + [last];
      assert r in front;
      RenditionSourcesComplete(front, assetMimeType, r);
    }
  }

  /** A rendition's source is among those added exactly when the rendition is
      eligible; every added source has an allowed MIME type other than the
      asset's. */
  lemma RenditionSelection(renditions: seq<Rendition>, assetMimeType: string)
    ensures forall r :: r in renditions ==>
              (SourceOfRendition(r) in RenditionSources(renditions, assetMimeType) <==> Eligible(r, assetMimeType))
    ensures forall s :: s in RenditionSources(renditions, assetMimeType) ==>
              s.mimeType in ALLOWED_MIME_TYPES && s.mimeType != assetMimeType
  {
    var sources := RenditionSources(renditions, assetMimeType);
    forall s | s in sources
      ensures s.mimeType in ALLOWED_MIME_TYPES && s.mimeType != assetMimeType
    {
      var i :| 0 <= i < |sources| && sources[i] == s;
      RenditionSourcesSound(renditions, assetMimeType, i);
    }
    forall r | r in renditions
      ensures SourceOfRendition(r) in sources <==> Eligible(r, assetMimeType)
    {
      if Eligible(r, assetMimeType) {
        RenditionSourcesComplete(renditions, assetMimeType, r);
      } else if SourceOfRendition(r) in sources {
        var i :| 0 <= i < |sources| && sources[i] == SourceOfRendition(r);
        RenditionSourcesSound(renditions, assetMimeType, i);
      }
    }
  }

  // ---------------------------------------------------------------------
  // The fields, as functions

  /** The component's own properties that the model reads (absent ones are
      None): fileReference, titleValueFromDAM, descriptionValueFromDAM,
      jcr:title, jcr:description, preload, autoplay, loop and hideControls. */
  datatype Properties = Properties(
    fileReference: Option<string>,
    titleFromDam: Option<bool>,
    descriptionFromDam: Option<bool>,
    title: Option<string>,
    description: Option<string>,
    preload: Option<string>,
    autoplay: Option<bool>,
    loop: Option<bool>,
    hideControls: Option<bool>)

  /** Every field of VideoImpl that the getters read. */
  datatype VideoView = VideoView(
    sources: seq<VideoSource>,
    posterImage: Option<string>,
    title: Option<string>,
    description: Option<string>,
    preload: Option<string>,
    autoplayEnabled: bool,
    loopEnabled: bool,
    hideControls: bool)

  /** The fields right after injection: the authored values, false for an
      absent flag, no sources and no poster. */
  function Injected(props: Properties): VideoView {
    VideoView([], None, props.title, props.description, props.preload,
              props.autoplay.GetOr(false), props.loop.GetOr(false), props.hideControls.GetOr(false))
  }

  /** The poster: the image preview rendition's path, unless there is none or
      it is the original rendition. */
  function Poster(asset: Asset): Option<string> {
    if asset.imagePreview.None? || asset.imagePreview == asset.original then None
    else Some(asset.imagePreview.value.path)
  }

  /** The fields initModel sets once it has an asset with an allowed MIME type. */
  function Loaded(v: VideoView, props: Properties, asset: Asset): VideoView {
    v.(sources := v.sources + [SourceOfAsset(asset)] + RenditionSources(asset.renditions, asset.mimeType),
       posterImage := if Poster(asset).Some? then Poster(asset) else v.posterImage,
       title := FromAsset(props.titleFromDam.GetOr(false), MetadataValue(asset, DC_TITLE), v.title),
       description := FromAsset(props.descriptionFromDam.GetOr(false), MetadataValue(asset, DC_DESCRIPTION), v.description),
       preload := if Blank(v.preload) then Some(PRELOAD_DEFAULT_NONE) else v.preload)
  }

  /** The asset initModel works from: the one fileReference resolves to, when
      the reference is not blank and the asset's MIME type is allowed. */
  function VideoAsset(props: Properties, repo: Repository): Option<Asset> {
    if Blank(props.fileReference) then None
    else match ReferencedAsset(repo, props.fileReference.value)
      case None => None
      case Some(asset) => if AllowedVideo(asset.mimeType) then Some(asset) else None
  }

  /** The fields after initModel. */
  function Init(props: Properties, repo: Repository): VideoView {
    match VideoAsset(props, repo)
    case None => Injected(props)
    case Some(asset) => Loaded(Injected(props), props, asset)
  }

  // ---------------------------------------------------------------------
  // What initModel promises

  /** A blank reference, one that resolves to no asset, and an asset whose
      MIME type is blank or not allowed all leave no sources, no poster, and
      title, description and preload as authored (preload possibly absent). */
  lemma EarlyReturn(props: Properties, repo: Repository)
    requires Blank(props.fileReference)
             || ReferencedAsset(repo, props.fileReference.value).None?
             || !AllowedVideo(ReferencedAsset(repo, props.fileReference.value).value.mimeType)
    ensures var v := Init(props, repo);
            && v.sources == [] && v.posterImage.None?
            && v.title == props.title && v.description == props.description && v.preload == props.preload
  {
  }

  /** On success the first source is the asset's own; the rest are the
      eligible renditions' sources, in rendition order, each of an allowed
      MIME type other than the asset's. */
  lemma LoadedSources(props: Properties, repo: Repository)
    requires VideoAsset(props, repo).Some?
    ensures var asset := VideoAsset(props, repo).value;
            var sources := Init(props, repo).sources;
            && |sources| >= 1
            && sources[0] == SourceOfAsset(asset)
            && sources[1..] == RenditionSources(asset.renditions, asset.mimeType)
            && (forall r :: r in asset.renditions ==> (SourceOfRendition(r) in sources[1..] <==> Eligible(r, asset.mimeType)))
            && (forall i :: 0 <= i < |sources| ==> sources[i].mimeType in ALLOWED_MIME_TYPES)
            && (forall i :: 1 <= i < |sources| ==> sources[i].mimeType != asset.mimeType)
  {
    var asset := VideoAsset(props, repo).value;
    var sources := Init(props, repo).sources;
    assert sources == [SourceOfAsset(asset)] + RenditionSources(asset.renditions, asset.mimeType);
    RenditionSelection(asset.renditions, asset.mimeType);
    forall i | 1 <= i < |sources|
      ensures sources[i].mimeType in ALLOWED_MIME_TYPES && sources[i].mimeType != asset.mimeType
    {
      assert sources[i] in sources[1..];
    }
  }

  /** On success the poster is the preview's path, or absent when there is no
      preview or the preview is the original; title and description come from
      the asset only when asked for and not blank; a blank preload becomes
      "none" and so is never blank afterwards. */
  lemma LoadedFields(props: Properties, repo: Repository)
    requires VideoAsset(props, repo).Some?
    ensures var asset := VideoAsset(props, repo).value;
            var v := Init(props, repo);
            var damTitle := MetadataValue(asset, DC_TITLE);
            var damDescription := MetadataValue(asset, DC_DESCRIPTION);
            && (v.posterImage.None? <==> asset.imagePreview.None? || asset.imagePreview == asset.original)
            && (v.posterImage.Some? ==> v.posterImage.value == asset.imagePreview.value.path)
            && (v.title == if props.titleFromDam == Some(true) && !Blank(damTitle) then damTitle else props.title)
            && (v.description == if props.descriptionFromDam == Some(true) && !Blank(damDescription)
                                 then damDescription else props.description)
            && (v.preload == if Blank(props.preload) then Some(PRELOAD_DEFAULT_NONE) else props.preload)
            && !Blank(v.preload)
  {
    var v := Init(props, repo);
    if Blank(props.preload) {
      assert v.preload == Some(PRELOAD_DEFAULT_NONE);
      assert !IsWhitespace(PRELOAD_DEFAULT_NONE[0]);
    }
  }

  /** Autoplay, loop and hide-controls are the authored flags, false when
      absent, whatever initModel finds. */
  lemma FlagsAsAuthored(props: Properties, repo: Repository)
    ensures var v := Init(props, repo);
            && v.autoplayEnabled == (props.autoplay == Some(true))
            && v.loopEnabled == (props.loop == Some(true))
            && v.hideControls == (props.hideControls == Some(true))
  {
  }

  // ---------------------------------------------------------------------
  // The model object

  class VideoModel {
    const properties: Properties

    var sources: seq<VideoSource>
    var posterImage: Option<string>
    var title: Option<string>
    var description: Option<string>
    var preload: Option<string>
    var autoplayEnabled: bool
    var loopEnabled: bool
    var hideControls: bool

    function View(): VideoView
      reads this
    {
      VideoView(sources, posterImage, title, description, preload, autoplayEnabled, loopEnabled, hideControls)
    }

    /** Injection of the component's properties. */
    constructor (properties: Properties)
      ensures this.properties == properties
      ensures View() == Injected(properties)
    {
      this.properties := properties;
      sources := [];
      posterImage := None;
      title, description, preload := properties.title, properties.description, properties.preload;
      autoplayEnabled := properties.autoplay.GetOr(false);
      loopEnabled := properties.loop.GetOr(false);
      hideControls := properties.hideControls.GetOr(false);
    }

    /** initModel, run once after injection. */
    method InitModel(repo: Repository)
      requires View() == Injected(properties)
      modifies this
      ensures View() == Init(properties, repo)
    {
      var fileReference := properties.fileReference;
      if Blank(fileReference) {
        return;
      }
      var assetResource := GetResource(repo, fileReference.value);
      if assetResource.None? {
        return;
      }
      var videoAsset := assetResource.value.asset;
      if videoAsset.None? {
        return;
      }
      var mimeType := videoAsset.value.mimeType;
      if IsBlank(mimeType) || mimeType !in ALLOWED_MIME_TYPES {
        return;
      }
      LoadAsset(videoAsset.value);
    }

    /** The success path of initModel: sources, poster, title and
        description, preload. */
    method LoadAsset(videoAsset: Asset)
      modifies this`sources, this`posterImage, this`title, this`description, this`preload
      ensures View() == Loaded(old(View()), properties, videoAsset)
    {
      AddSources(videoAsset);
      SetPoster(videoAsset);
      SetTitleAndDescription(videoAsset);
      if Blank(preload) {
        preload := Some(PRELOAD_DEFAULT_NONE);
      }
    }

    /** The asset's own source, then a source for each eligible rendition. */
    method AddSources(videoAsset: Asset)
      modifies this`sources
      ensures sources == old(sources) + [SourceOfAsset(videoAsset)] + RenditionSources(videoAsset.renditions, videoAsset.mimeType)
    {
      var mimeType := videoAsset.mimeType;
      sources := sources + [SourceOfAsset(videoAsset)];
      var renditions := videoAsset.renditions;
      var k := 0;
      while k < |renditions|
        invariant 0 <= k <= |renditions|
        invariant sources == old(sources) + [SourceOfAsset(videoAsset)] + RenditionSources(renditions[..k], mimeType)
      {
        var rendition := renditions[k];
        var renditionMimeType := rendition.mimeType;
        assert renditions[..k + 1][..k] == renditions[..k];
        if !IsBlank(renditionMimeType) && renditionMimeType != mimeType && renditionMimeType in ALLOWED_MIME_TYPES {
          sources := sources + [SourceOfRendition(rendition)];
        }
        k := k + 1;
      }
      assert renditions[..k] == renditions;
    }

    method SetPoster(videoAsset: Asset)
      modifies this`posterImage
      ensures posterImage == if Poster(videoAsset).Some? then Poster(videoAsset) else old(posterImage)
    {
      var imagePreviewRendition := videoAsset.imagePreview;
      if imagePreviewRendition.Some? && imagePreviewRendition != videoAsset.original {
        posterImage := Some(imagePreviewRendition.value.path);
      }
    }

    method SetTitleAndDescription(videoAsset: Asset)
      modifies this`title, this`description
      ensures title == FromAsset(properties.titleFromDam.GetOr(false), MetadataValue(videoAsset, DC_TITLE), old(title))
      ensures description == FromAsset(properties.descriptionFromDam.GetOr(false),
                                       MetadataValue(videoAsset, DC_DESCRIPTION), old(description))
    {
      if properties.titleFromDam.GetOr(false) {
        var damTitle := MetadataValue(videoAsset, DC_TITLE);
        if !Blank(damTitle) {
          title := damTitle;
        }
      }
      if properties.descriptionFromDam.GetOr(false) {
        var damDescription := MetadataValue(videoAsset, DC_DESCRIPTION);
        if !Blank(damDescription) {
          description := MetadataValue(videoAsset, DC_DESCRIPTION);
        }
      }
    }
  }
}
