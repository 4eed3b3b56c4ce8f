/** DownloadImpl: the view model of the Download component. After injection,
    initModel fills in the fields the template reads, either from a DAM asset
    the component references, or from a file uploaded below the component. */
module Download {
  import opened Wrappers
  import opened Text
  import opened Dam
  import CoreFileDownload
  import PathSplit

  const JPEG_EXTENSION := ".jpeg"
  const IMAGE_SERVLET_EXTENSION := ".coreimg.jpeg"
  const DOT := "."
  const SLASH := "/"

  /** The start of every download URL: the newer servlet's path and extension. */
  const DOWNLOAD_SERVLET := CoreFileDownload.PATH + DOT + CoreFileDownload.EXTENSION

  /** The component's own properties that the model reads (absent ones are
      None): fileReference, titleFromAsset, descriptionFromAsset, jcr:title,
      jcr:description, actionText, fileName and jcr:lastModified (in
      milliseconds). */
  datatype Properties = Properties(
    fileReference: Option<string>,
    titleFromAsset: Option<bool>,
    descriptionFromAsset: Option<bool>,
    title: Option<string>,
    description: Option<string>,
    actionText: Option<string>,
    fileName: Option<string>,
    lastModified: Option<int>)

  /** The component's design policy: actionText, titleType and the four
      display flags. */
  datatype Style = Style(
    actionText: Option<string>,
    titleType: Option<string>,
    displayThumbnail: Option<bool>,
    displaySize: Option<bool>,
    displayFormat: Option<bool>,
    displayFilename: Option<bool>)

  /** The jcr:content child of an uploaded file, with its jcr:uuid. */
  datatype FileContent = FileContent(uuid: Option<string>)

  /** The uploaded `file` child: its resource metadata (content type and
      content length) and its jcr:content child. */
  datatype FileResource = FileResource(contentType: Option<string>, contentLength: Option<int>, content: Option<FileContent>)

  /** The component's resource: its path and its `file` child. */
  datatype ComponentResource = ComponentResource(path: string, fileChild: Option<FileResource>)

  /** Every field of DownloadImpl that initModel writes. */
  datatype DownloadView = DownloadView(
    downloadUrl: Option<string>,
    titleFromAsset: bool,
    descriptionFromAsset: bool,
    displayImage: bool,
    displaySize: bool,
    displayFormat: bool,
    displayFilename: bool,
    title: Option<string>,
    description: Option<string>,
    actionText: Option<string>,
    imagePath: Option<string>,
    titleType: Option<string>,
    filename: Option<string>,
    format: Option<string>,
    size: Option<string>,
    lastModified: int)

  // ---------------------------------------------------------------------
  // The download URL

  /** createDownloadUrl's URL: none when the id or the file name is blank. */
  function DownloadUrlFor(uuid: Option<string>, filename: Option<string>): (url: Option<string>)
    ensures url.Some? <==> !Blank(uuid) && !Blank(filename)
    ensures url.Some? ==> DOWNLOAD_SERVLET <= url.value
  {
    if Blank(uuid) || Blank(filename) then None
    else Some(DOWNLOAD_SERVLET + SLASH + uuid.value + SLASH + filename.value)
  }

  /** What the URL leaves to the servlet as its suffix reads back, through the
      servlet's split and blank checks, as the id and the file name it was
      built from, as long as neither holds a slash. */
  lemma DownloadUrlRoundTrip(uuid: string, filename: string)
    requires !IsBlank(uuid) && !IsBlank(filename) && '/' !in uuid && '/' !in filename
    ensures var url := DownloadUrlFor(Some(uuid), Some(filename));
            && url.Some?
            && CoreFileDownload.ParseSuffix(Some(url.value[|DOWNLOAD_SERVLET|..])) == CoreFileDownload.Parts(uuid, filename)
  {
    var url := DownloadUrlFor(Some(uuid), Some(filename)).value;
    var suffix := "/" + uuid + "/" + filename;
    assert url == DOWNLOAD_SERVLET + suffix;
    assert url[|DOWNLOAD_SERVLET|..] == suffix;
    CoreFileDownload.ParseJoinedSuffix("", uuid, filename, 0);
    assert "" + "/" + uuid + "/" + filename + PathSplit.Slashes(0) == "" + "/" + uuid + "/" + filename;
    assert "" + "/" + uuid + "/" + filename == suffix;
  }

  /** The URL built from an asset's id and name routes back to that asset:
      the newer servlet serves its original rendition under the asset's name. */
  lemma DownloadUrlServesAsset(repo: Repository, asset: Asset, resource: Resource, original: Rendition)
    requires !IsBlank(asset.id) && !IsBlank(asset.name) && '/' !in asset.id && '/' !in asset.name
    requires FindDownloadableResource(repo, asset.id) == Some(resource)
    requires CoreFileDownload.ASSET_RESOURCE_TYPE in resource.resourceTypes
    requires resource.name == asset.name && resource.asset == Some(asset)
    requires asset.original == Some(original) && CoreFileDownload.InIntRange(original.size)
    ensures var url := DownloadUrlFor(Some(asset.id), Some(asset.name));
            && url.Some?
            && CoreFileDownload.Decide(Some(url.value[|DOWNLOAD_SERVLET|..]), repo)
               == CoreFileDownload.Serve(original, asset.name)
  {
    var url := DownloadUrlFor(Some(asset.id), Some(asset.name)).value;
    assert url[|DOWNLOAD_SERVLET|..] == "/" + asset.id + "/" + asset.name;
    assert EqualsIgnoreCase(asset.name, resource.name);
    CoreFileDownload.FoundAssetServed(repo, asset.id, asset.name, resource, original);
  }

  // ---------------------------------------------------------------------
  // The thumbnail

  /** setFieldsForDamAsset's lastModified: the component's jcr:lastModified
      when it has one (else the field's value so far), raised to the asset's
      when that is later. */
  function LastModifiedOf(component: Option<int>, current: int, asset: int): (lm: int)
    ensures lm >= component.GetOr(current) && lm >= asset
    ensures lm == component.GetOr(current) || lm == asset
  {
    if asset > component.GetOr(current) then asset else component.GetOr(current)
  }

  /** The thumbnail: the mapped component path and the image servlet's
      extension, then `/<lastModified>.jpeg` when the timestamp is positive. */
  function ThumbnailPath(mappedPath: string, lastModified: int): (p: string)
    ensures mappedPath + IMAGE_SERVLET_EXTENSION <= p
  {
    mappedPath + IMAGE_SERVLET_EXTENSION
    + (if lastModified > 0 then SLASH + Decimal(lastModified) + JPEG_EXTENSION else "")
  }

  /** The timestamp segment is there exactly when the timestamp is positive,
      and it spells the timestamp in decimal. */
  lemma ThumbnailTimestamp(mappedPath: string, lastModified: int)
    ensures var p := ThumbnailPath(mappedPath, lastModified);
            var base := mappedPath + IMAGE_SERVLET_EXTENSION;
            && (lastModified > 0 <==> |p| > |base|)
            && (lastModified > 0 ==> p[|base|..] == SLASH + Decimal(lastModified) + JPEG_EXTENSION)
  {
    var p := ThumbnailPath(mappedPath, lastModified);
    var base := mappedPath + IMAGE_SERVLET_EXTENSION;
    if lastModified > 0 {
      assert p == base + (SLASH + Decimal(lastModified) + JPEG_EXTENSION);
    } else {
      assert p == base + "";
    }
  }

  /** Cache busting: two positive timestamps give the same thumbnail only when
      they are equal, and a positive one never gives the thumbnail of a
      timestamp that is not. */
  lemma ThumbnailTimestampInjective(mappedPath: string, lm1: int, lm2: int)
    requires ThumbnailPath(mappedPath, lm1) == ThumbnailPath(mappedPath, lm2)
    ensures lm1 > 0 <==> lm2 > 0
    ensures lm1 > 0 ==> lm1 == lm2
  {
    ThumbnailTimestamp(mappedPath, lm1);
    ThumbnailTimestamp(mappedPath, lm2);
    if lm1 > 0 && lm2 > 0 {
      var d1, d2 := Decimal(lm1), Decimal(lm2);
      var segment := ThumbnailPath(mappedPath, lm1)[|mappedPath + IMAGE_SERVLET_EXTENSION|..];
      assert segment == SLASH + d1 + JPEG_EXTENSION == SLASH + d2 + JPEG_EXTENSION;
      assert |d1| == |d2|;
      assert d1 == segment[1..|segment| - 5] == d2;
      DecimalRoundTrip(lm1);
      DecimalRoundTrip(lm2);
    }
  }

  // ---------------------------------------------------------------------
  // The fields, step by step

  /** The fields right after injection: the authored title, description and
      action text, and nothing else. */
  function Injected(props: Properties): DownloadView {
    DownloadView(None, false, false, false, false, false, false,
                 props.title, props.description, props.actionText,
                 None, None, None, None, None, 0)
  }

  /** The design policy's part of initModel. */
  function ApplyStyle(v: DownloadView, style: Option<Style>): DownloadView {
    match style
    case None => v
    case Some(st) =>
      v.(actionText := if Blank(v.actionText) then st.actionText else v.actionText,
         titleType := st.titleType,
         displayImage := st.displayThumbnail.GetOr(false),
         displaySize := st.displaySize.GetOr(false),
         displayFormat := st.displayFormat.GetOr(false),
         displayFilename := st.displayFilename.GetOr(false))
  }

  /** createDownloadUrl: the URL when it can be built, the old value otherwise. */
  function WithDownloadUrl(v: DownloadView, uuid: Option<string>, filename: Option<string>): DownloadView {
    var url := DownloadUrlFor(uuid, filename);
    if url.Some? then v.(downloadUrl := url) else v
  }

  /** setFieldsForUploadedFile. */
  function UploadedFields(v: DownloadView, props: Properties, file: FileResource, displaySizeOf: int -> string): DownloadView {
    match file.content
    case None => v
    case Some(content) =>
      var rawFileSize := file.contentLength.GetOr(0);
      WithDownloadUrl(v, content.uuid, props.fileName).(
        filename := props.fileName,
        format := Some(file.contentType.GetOr("")),
        size := if rawFileSize > 0 then Some(displaySizeOf(rawFileSize)) else v.size)
  }

  /** setFieldsForDamAsset: the timestamp and the file name, then the URL,
      then the fields read from the asset. */
  function DamFields(v: DownloadView, props: Properties, asset: Asset, componentPath: string,
                     mapPath: string -> string, displaySizeOf: int -> string): DownloadView
  {
    var named := v.(lastModified := LastModifiedOf(props.lastModified, v.lastModified, asset.lastModified),
                    filename := Some(asset.name));
    AssetFields(WithDownloadUrl(named, Some(asset.id), Some(asset.name)), asset, mapPath(componentPath), displaySizeOf)
  }

  /** The part of setFieldsForDamAsset after the URL: format, size, thumbnail,
      title and description. */
  function AssetFields(v: DownloadView, asset: Asset, mappedPath: string, displaySizeOf: int -> string): DownloadView {
    v.(format := MetadataValue(asset, DC_FORMAT),
       size := if asset.damSize.Some? then Some(displaySizeOf(asset.damSize.value)) else None,
       imagePath := Some(ThumbnailPath(mappedPath, v.lastModified)),
       title := FromAsset(v.titleFromAsset, MetadataValue(asset, DC_TITLE), v.title),
       description := FromAsset(v.descriptionFromAsset, MetadataValue(asset, DC_DESCRIPTION), v.description))
  }

  /** The fields the design policy sets: title type, action text and the four
      display flags. */
  function StyleFields(v: DownloadView): (Option<string>, Option<string>, bool, bool, bool, bool) {
    (v.titleType, v.actionText, v.displayImage, v.displaySize, v.displayFormat, v.displayFilename)
  }

  /** Neither way of filling in the file touches what the design policy set. */
  lemma DamFieldsKeepStyle(v: DownloadView, props: Properties, asset: Asset, componentPath: string,
                           mapPath: string -> string, displaySizeOf: int -> string)
    ensures StyleFields(DamFields(v, props, asset, componentPath, mapPath, displaySizeOf)) == StyleFields(v)
  {
  }

  lemma UploadedFieldsKeepStyle(v: DownloadView, props: Properties, file: FileResource, displaySizeOf: int -> string)
    ensures StyleFields(UploadedFields(v, props, file, displaySizeOf)) == StyleFields(v)
  {
  }

  /** The fields after initModel. `mapPath` stands for ResourceResolver.map
      and `displaySizeOf` for FileUtils.byteCountToDisplaySize. */
  function Init(props: Properties, style: Option<Style>, component: ComponentResource, repo: Repository,
                mapPath: string -> string, displaySizeOf: int -> string): DownloadView
  {
    var v := ApplyStyle(Injected(props).(titleFromAsset := props.titleFromAsset.GetOr(false),
                                         descriptionFromAsset := props.descriptionFromAsset.GetOr(false)),
                        style);
    if !Blank(props.fileReference) then
      match ReferencedAsset(repo, props.fileReference.value)
      case None => v
      case Some(asset) => DamFields(v, props, asset, component.path, mapPath, displaySizeOf)
    else
      match component.fileChild
      case None => v
      case Some(file) => UploadedFields(v, props, file, displaySizeOf)
  }

  // ---------------------------------------------------------------------
  // What initModel promises

  /** DAM mode: the URL is built from the asset's id and name; the format is
      dc:format; a size is shown exactly when dam:size is present (0
      included); the timestamp is the later of the component's and the
      asset's; the thumbnail carries it; title and description come from the
      asset only when asked for and not blank. */
  lemma DamModeFields(props: Properties, style: Option<Style>, component: ComponentResource, repo: Repository,
                      mapPath: string -> string, displaySizeOf: int -> string)
    requires !Blank(props.fileReference)
    requires ReferencedAsset(repo, props.fileReference.value).Some?
    ensures var asset := ReferencedAsset(repo, props.fileReference.value).value;
            var v := Init(props, style, component, repo, mapPath, displaySizeOf);
            var title := MetadataValue(asset, DC_TITLE);
            var description := MetadataValue(asset, DC_DESCRIPTION);
            && v.filename == Some(asset.name)
            && v.downloadUrl == DownloadUrlFor(Some(asset.id), Some(asset.name))
            && v.format == MetadataValue(asset, DC_FORMAT)
            && (v.size.Some? <==> asset.damSize.Some?)
            && v.lastModified >= props.lastModified.GetOr(0) && v.lastModified >= asset.lastModified
            && (v.lastModified == props.lastModified.GetOr(0) || v.lastModified == asset.lastModified)
            && v.imagePath == Some(ThumbnailPath(mapPath(component.path), v.lastModified))
            && (v.title == if props.titleFromAsset == Some(true) && !Blank(title) then title else props.title)
            && (v.description == if props.descriptionFromAsset == Some(true) && !Blank(description)
                                 then description else props.description)
  {
  }

  /** A non-blank file reference selects DAM mode alone: the uploaded file is
      never looked at. */
  lemma FileReferenceExcludesUpload(props: Properties, style: Option<Style>, path: string,
                                    file1: Option<FileResource>, file2: Option<FileResource>, repo: Repository,
                                    mapPath: string -> string, displaySizeOf: int -> string)
    requires !Blank(props.fileReference)
    ensures Init(props, style, ComponentResource(path, file1), repo, mapPath, displaySizeOf)
            == Init(props, style, ComponentResource(path, file2), repo, mapPath, displaySizeOf)
  {
  }

  /** A reference that resolves to no asset leaves the URL, file name, format,
      size and thumbnail unset, and title and description as authored. */
  lemma UnresolvedReference(props: Properties, style: Option<Style>, component: ComponentResource, repo: Repository,
                            mapPath: string -> string, displaySizeOf: int -> string)
    requires !Blank(props.fileReference)
    requires ReferencedAsset(repo, props.fileReference.value).None?
    ensures var v := Init(props, style, component, repo, mapPath, displaySizeOf);
            && v.downloadUrl.None? && v.filename.None? && v.format.None? && v.size.None? && v.imagePath.None?
            && v.lastModified == 0 && v.title == props.title && v.description == props.description
  {
  }

  /** Uploaded mode: the id comes from jcr:content, the file name from the
      component's fileName; the format defaults to ""; a size is shown exactly
      when the content length is positive; there is no thumbnail. */
  lemma UploadedModeFields(props: Properties, style: Option<Style>, component: ComponentResource, repo: Repository,
                           mapPath: string -> string, displaySizeOf: int -> string)
    requires Blank(props.fileReference)
    requires component.fileChild.Some? && component.fileChild.value.content.Some?
    ensures var file := component.fileChild.value;
            var v := Init(props, style, component, repo, mapPath, displaySizeOf);
            && v.filename == props.fileName
            && v.downloadUrl == DownloadUrlFor(file.content.value.uuid, props.fileName)
            && v.format == Some(file.contentType.GetOr(""))
            && (v.size.Some? <==> file.contentLength.GetOr(0) > 0)
            && v.imagePath.None? && v.lastModified == 0
            && v.title == props.title && v.description == props.description
  {
  }

  /** Without a file reference and without an uploaded file that has
      jcr:content, nothing about the file is set. */
  lemma NoFile(props: Properties, style: Option<Style>, component: ComponentResource, repo: Repository,
               mapPath: string -> string, displaySizeOf: int -> string)
    requires Blank(props.fileReference)
    requires component.fileChild.None? || component.fileChild.value.content.None?
    ensures var v := Init(props, style, component, repo, mapPath, displaySizeOf);
            && v.downloadUrl.None? && v.filename.None? && v.format.None? && v.size.None? && v.imagePath.None?
  {
  }

  /** The design policy: without one, the display flags are false, there is no
      title type and the action text is as authored; with one, it supplies
      the title type and the flags, and the action text when the authored one
      is blank. */
  lemma StyleHandling(props: Properties, style: Option<Style>, component: ComponentResource, repo: Repository,
                      mapPath: string -> string, displaySizeOf: int -> string)
    ensures var v := Init(props, style, component, repo, mapPath, displaySizeOf);
            && (style.None? ==>
                  !v.displayImage && !v.displaySize && !v.displayFormat && !v.displayFilename
                  && v.titleType.None? && v.actionText == props.actionText)
            && (style.Some? ==>
                  && v.titleType == style.value.titleType
                  && v.displayImage == style.value.displayThumbnail.GetOr(false)
                  && v.displaySize == style.value.displaySize.GetOr(false)
                  && v.displayFormat == style.value.displayFormat.GetOr(false)
                  && v.displayFilename == style.value.displayFilename.GetOr(false)
                  && v.actionText == if Blank(props.actionText) then style.value.actionText else props.actionText)
  {
    InitKeepsStyle(props, style, component, repo, mapPath, displaySizeOf);
  }

  /** Whichever way initModel fills in the file, the fields the design
      policy set stay as it set them. */
  lemma InitKeepsStyle(props: Properties, style: Option<Style>, component: ComponentResource, repo: Repository,
                       mapPath: string -> string, displaySizeOf: int -> string)
    ensures StyleFields(Init(props, style, component, repo, mapPath, displaySizeOf))
            == StyleFields(ApplyStyle(Injected(props), style))
  {
    var v := ApplyStyle(Injected(props).(titleFromAsset := props.titleFromAsset.GetOr(false),
                                         descriptionFromAsset := props.descriptionFromAsset.GetOr(false)),
                        style);
    assert StyleFields(v) == StyleFields(ApplyStyle(Injected(props), style));
    if !Blank(props.fileReference) {
      match ReferencedAsset(repo, props.fileReference.value)
      case None =>
      case Some(asset) => DamFieldsKeepStyle(v, props, asset, component.path, mapPath, displaySizeOf);
    } else {
      match component.fileChild
      case None =>
      case Some(file) => UploadedFieldsKeepStyle(v, props, file, displaySizeOf);
    }
  }

  // ---------------------------------------------------------------------
  // The model object

  class DownloadModel {
    const properties: Properties
    const currentStyle: Option<Style>
    const resource: ComponentResource

    var downloadUrl: Option<string>
    var titleFromAsset: bool
    var descriptionFromAsset: bool
    var displayImage: bool
    var displaySize: bool
    var displayFormat: bool
    var displayFilename: bool
    var title: Option<string>
    var description: Option<string>
    var actionText: Option<string>
    var imagePath: Option<string>
    var titleType: Option<string>
    var filename: Option<string>
    var format: Option<string>
    var size: Option<string>
    var lastModified: int

    function View(): DownloadView
      reads this
    {
      DownloadView(downloadUrl, titleFromAsset, descriptionFromAsset,
                   displayImage, displaySize, displayFormat, displayFilename,
                   title, description, actionText, imagePath, titleType,
                   filename, format, size, lastModified)
    }

    /** Injection of the request's properties, style and resource. */
    constructor (properties: Properties, currentStyle: Option<Style>, resource: ComponentResource)
      ensures this.properties == properties && this.currentStyle == currentStyle && this.resource == resource
      ensures View() == Injected(properties)
    {
      this.properties := properties;
      this.currentStyle := currentStyle;
      this.resource := resource;
      downloadUrl := None;
      titleFromAsset, descriptionFromAsset := false, false;
      displayImage, displaySize, displayFormat, displayFilename := false, false, false, false;
      title, description, actionText := properties.title, properties.description, properties.actionText;
      imagePath, titleType, filename, format, size := None, None, None, None, None;
      lastModified := 0;
    }

    /** initModel, run once after injection. */
    method InitModel(repo: Repository, mapPath: string -> string, displaySizeOf: int -> string)
      requires View() == Injected(properties)
      modifies this
      ensures View() == Init(properties, currentStyle, resource, repo, mapPath, displaySizeOf)
    {
      var fileReference := properties.fileReference;
      titleFromAsset := properties.titleFromAsset.GetOr(titleFromAsset);
      descriptionFromAsset := properties.descriptionFromAsset.GetOr(descriptionFromAsset);
      ApplyCurrentStyle();
      if !Blank(fileReference) {
        var downloadResource := GetResource(repo, fileReference.value);
        if downloadResource.Some? {
          var downloadAsset := downloadResource.value.asset;
          if downloadAsset.Some? {
            SetFieldsForDamAsset(downloadAsset.value, mapPath, displaySizeOf);
          }
        }
      } else {
        var fileResource := resource.fileChild;
        if fileResource.Some? {
          SetFieldsForUploadedFile(fileResource.value, displaySizeOf);
        }
      }
    }

    /** The design policy's part of initModel. */
    method ApplyCurrentStyle()
      modifies this`actionText, this`titleType, this`displayImage, this`displaySize, this`displayFormat,
               this`displayFilename
      ensures View() == ApplyStyle(old(View()), currentStyle)
    {
      if currentStyle.Some? {
        var style := currentStyle.value;
        if Blank(actionText) {
          actionText := style.actionText;
        }
        titleType := style.titleType;
        displayImage := style.displayThumbnail.GetOr(false);
        displaySize := style.displaySize.GetOr(false);
        displayFormat := style.displayFormat.GetOr(false);
        displayFilename := style.displayFilename.GetOr(false);
        assert View() == old(View()).(actionText := actionText, titleType := titleType, displayImage := displayImage,
                                      displaySize := displaySize, displayFormat := displayFormat,
                                      displayFilename := displayFilename);
      }
    }

    method CreateDownloadUrl(uuid: Option<string>, filename: Option<string>)
      modifies this`downloadUrl
      ensures View() == WithDownloadUrl(old(View()), uuid, filename)
    {
      if Blank(uuid) || Blank(filename) {
        return;
      }
      var downloadUrlBuilder := "";
      downloadUrlBuilder := downloadUrlBuilder + CoreFileDownload.PATH;
      downloadUrlBuilder := downloadUrlBuilder + DOT;
      downloadUrlBuilder := downloadUrlBuilder + CoreFileDownload.EXTENSION;
      downloadUrlBuilder := downloadUrlBuilder + SLASH;
      downloadUrlBuilder := downloadUrlBuilder + uuid.value;
      downloadUrlBuilder := downloadUrlBuilder + SLASH;
      downloadUrlBuilder := downloadUrlBuilder + filename.value;
      assert downloadUrlBuilder == DOWNLOAD_SERVLET + SLASH + uuid.value + SLASH + filename.value;
      downloadUrl := Some(downloadUrlBuilder);
    }

    method SetFieldsForUploadedFile(fileResource: FileResource, displaySizeOf: int -> string)
      modifies this
      ensures View() == UploadedFields(old(View()), properties, fileResource, displaySizeOf)
    {
      if fileResource.content.None? {
        return;
      }
      var fileContentProperties := fileResource.content.value;
      var uuid := fileContentProperties.uuid;
      CreateDownloadUrl(uuid, properties.fileName);
      ghost var withUrl := View();
      assert withUrl == WithDownloadUrl(old(View()), uuid, properties.fileName);
      filename := properties.fileName;
      format := Some(fileResource.contentType.GetOr(""));
      var rawFileSize := fileResource.contentLength.GetOr(0);
      if rawFileSize > 0 {
        size := Some(displaySizeOf(rawFileSize));
      }
      assert View() == withUrl.(filename := properties.fileName, format := Some(fileResource.contentType.GetOr("")),
                                size := if rawFileSize > 0 then Some(displaySizeOf(rawFileSize)) else withUrl.size);
    }

    /** setFieldsForDamAsset, in three steps: the timestamp; the file name
        and the URL; the fields read from the asset. */
    method SetFieldsForDamAsset(downloadAsset: Asset, mapPath: string -> string, displaySizeOf: int -> string)
      modifies this
      ensures View() == DamFields(old(View()), properties, downloadAsset, resource.path, mapPath, displaySizeOf)
    {
      UpdateLastModified(downloadAsset.lastModified);
      var uuid := downloadAsset.id;
      filename := Some(downloadAsset.name);
      ghost var named := View();
      assert named == old(View()).(lastModified := lastModified, filename := filename);
      CreateDownloadUrl(Some(uuid), filename);
      ghost var withUrl := View();
      var resourcePath := mapPath(resource.path);
      SetAssetFields(downloadAsset, resourcePath, displaySizeOf);
      assert View() == AssetFields(withUrl, downloadAsset, resourcePath, displaySizeOf);
    }

    /** The component's jcr:lastModified when it has one, raised to the
        asset's when that is later. */
    method UpdateLastModified(assetLastModified: int)
      modifies this`lastModified
      ensures lastModified == LastModifiedOf(properties.lastModified, old(lastModified), assetLastModified)
    {
      var resourceLastModified := properties.lastModified;
      if resourceLastModified.Some? {
        lastModified := resourceLastModified.value;
      }
      if assetLastModified > lastModified {
        lastModified := assetLastModified;
      }
    }

    /** Format, size, thumbnail, title and description from the asset. */
    method SetAssetFields(downloadAsset: Asset, resourcePath: string, displaySizeOf: int -> string)
      modifies this`format, this`size, this`imagePath, this`title, this`description
      ensures View() == AssetFields(old(View()), downloadAsset, resourcePath, displaySizeOf)
    {
      SetFormatAndSize(downloadAsset, displaySizeOf);
      SetImagePath(resourcePath);
      SetTitleAndDescription(downloadAsset);
    }

    method SetFormatAndSize(downloadAsset: Asset, displaySizeOf: int -> string)
      modifies this`format, this`size
      ensures format == MetadataValue(downloadAsset, DC_FORMAT)
      ensures size == if downloadAsset.damSize.Some? then Some(displaySizeOf(downloadAsset.damSize.value)) else None
    {
      format := MetadataValue(downloadAsset, DC_FORMAT);
      size := None;
      var rawFileSizeObject := downloadAsset.damSize;
      if rawFileSizeObject.Some? {
        size := Some(displaySizeOf(rawFileSizeObject.value));
      }
    }

    method SetImagePath(resourcePath: string)
      modifies this`imagePath
      ensures imagePath == Some(ThumbnailPath(resourcePath, lastModified))
    {
      var imagePathBuilder := resourcePath + IMAGE_SERVLET_EXTENSION;
      if lastModified > 0 {
        imagePathBuilder := imagePathBuilder + (SLASH + Decimal(lastModified) + JPEG_EXTENSION);
      } else {
        imagePathBuilder := imagePathBuilder + "";
      }
      imagePath := Some(imagePathBuilder);
    }

    method SetTitleAndDescription(downloadAsset: Asset)
      modifies this`title, this`description
      ensures title == FromAsset(titleFromAsset, MetadataValue(downloadAsset, DC_TITLE), old(title))
      ensures description == FromAsset(descriptionFromAsset, MetadataValue(downloadAsset, DC_DESCRIPTION), old(description))
    {
      if titleFromAsset {
        var assetTitle := MetadataValue(downloadAsset, DC_TITLE);
        if !Blank(assetTitle) {
          title := assetTitle;
        }
      }
      if descriptionFromAsset {
        var assetDescription := MetadataValue(downloadAsset, DC_DESCRIPTION);
        if !Blank(assetDescription) {
          description := assetDescription;
        }
      }
    }
  }
}
