# Download, video and children-editor logic of the AEM Core WCM Components, in Dafny

This project models four pieces of sequential logic from the Core WCM
Components bundle, separated from the Sling, JCR and OSGi plumbing around
them, and proves properties about them.

- **The file download endpoint.** `CoreFileDownloadServlet` answers GET
  requests on `/bin/download.file/<uuid>/<filename>`.
  - It splits the request suffix the way Java's `String.split("/")` does,
    with trailing empty parts dropped.
  - It rejects a blank suffix, a part count other than three, and a blank
    id or file name.
  - It looks the id up in the asset store and checks the file name against
    the asset's name, ignoring case.
  - It then streams the original rendition.
    - `Content-Type` is set from the rendition.
    - `Content-Length` is set only when positive.
    - `Content-Disposition` follows section 4.1 of RFC 6266: `attachment;
      filename="…"` when downloads are forced, `inline` otherwise.
    - The input stream is closed after the copy.
  - The older `FileDownloadServlet` at the same path performs the same split
    and lookup. It has no blank checks on the id or file name, and it never
    streams. Lemmas relate the two servlets.
- **The download view model (`DownloadImpl`).**
  - Applies the design policy.
  - Chooses between DAM-asset mode and uploaded-file mode.
  - Builds the download URL.
  - Takes the later of the component's and the asset's modification times.
  - Builds the cache-busting thumbnail path.
  - Falls back to the authored title and description.
  - The URL it builds and the servlet's suffix parser together form a
    round trip.
- **Video source selection.** `VideoImpl` uses the constants of the `Video`
  interface and the `VideoSourceImpl` value type.
  - The asset's own source comes first.
  - Then come the renditions whose MIME type is on the five-entry allow-list
    and differs from the asset's, in rendition order.
  - On the success path it also sets the poster, the DAM title and
    description, and the preload default `"none"`.
- **Child reordering (`ChildrenEditorServlet.doPost`).**
  - Deletes the named children.
  - Walks the ordered names from last to first.
    - It creates each missing name by appending it.
    - It calls `orderBefore(name[i], name[i+1])` (section 23 of JSR 283,
      Orderable Child Nodes).
    - A repository error at one index ends only that pass.

Imperative source code is modelled as classes with `modifies` frames.

- A response is an `Http.Response` class holding its status, headers, body
  and error flag. An input stream is a `ByteSource` with a `closed` flag.
- The servlet keeps its `forceDownload` field.
- The download and video models are classes whose `InitModel` assigns their
  fields step by step.
- The children editor's container is a class holding the child list.

Each method is proved against a pure function of the inputs and the old
state:

- `Decide` and `Respond` for the servlet;
- `Init` for the view models;
- `AfterPost`, `OrderFrom` and `Step` for the children editor.

The properties are proved as lemmas about those functions.

Calls into code that is not visible become parameters:

- the asset store is a `Repository` value, and every kind of lookup failure
  is `None`;
- `resourceResolver.map` is a function parameter `mapPath`;
- `FileUtils.byteCountToDisplaySize` is a function parameter
  `displaySizeOf`;
- whether a copy fails, and after how many bytes, is a parameter
  `copyFailure`.

Java strings are `seq<char>`:

- `StringUtils.isBlank` is modelled with an explicit whitespace predicate;
- `equalsIgnoreCase` is an ASCII case fold;
- a `Calendar` is an integer number of milliseconds.


## Model

| member | source | states |
|---|---|---|
| CoreFileDownload.ParseSuffix | bundles/core/src/main/java/com/adobe/cq/wcm/core/components/internal/servlets/CoreFileDownloadServlet.java:100-122 | a suffix is accepted only when it is not blank and contains a slash; the id and file name it yields are slash-free and neither of them is blank |
| CoreFileDownload.ParsedSuffixShape | bundles/core/src/main/java/com/adobe/cq/wcm/core/components/internal/servlets/CoreFileDownloadServlet.java:106-122 | every accepted suffix is a slash-free leading part, the id and the file name joined by slashes, followed only by trailing slashes; the leading part is never checked |
| CoreFileDownload.ParseJoinedSuffix | bundles/core/src/main/java/com/adobe/cq/wcm/core/components/internal/servlets/CoreFileDownloadServlet.java:106-122 | conversely, every suffix of that shape is accepted: a slash-free leading part, a non-blank slash-free id and file name, joined by slashes and followed by any number of trailing slashes (which the split drops), parse back into that id and file name |
| CoreFileDownload.AssetDecision | bundles/core/src/main/java/com/adobe/cq/wcm/core/components/internal/servlets/CoreFileDownloadServlet.java:147-168 | streamAsset's part of the decision: a resource that does not adapt to an asset, or an asset without an original rendition, is a 404; with an original, it is served exactly when its size fits an int, and otherwise `Math.toIntExact` fails on it; a served rendition is the asset's original, under the suffix's file name |
| CoreFileDownload.Decide | bundles/core/src/main/java/com/adobe/cq/wcm/core/components/internal/servlets/CoreFileDownloadServlet.java:96-145 | doGet's decision: a malformed suffix is a 404, and a served file name is the suffix's; that a failed lookup is a 404 is `LookupFailureIsNotFound`, and exactly what is served is `ServedOnlyWhenValid` |
| CoreFileDownload.ServedOnlyWhenValid | bundles/core/src/main/java/com/adobe/cq/wcm/core/components/internal/servlets/CoreFileDownloadServlet.java:113-161 | for every suffix and store, a request is served exactly when the suffix parses, the lookup succeeds, the resource is a `dam:Asset` whose name matches the suffix file name ignoring case, it adapts to an asset with an original rendition, and that rendition's size fits an int; what is served is that rendition under the suffix's file name |
| CoreFileDownload.NotAnAssetIff | bundles/core/src/main/java/com/adobe/cq/wcm/core/components/internal/servlets/CoreFileDownloadServlet.java:133-144 | a request is left alone exactly when the suffix parses and the lookup finds a resource that is not a `dam:Asset`; such a response keeps its state exactly (no error, no header, no body) and nothing escapes |
| CoreFileDownload.NameMismatchIsNotFound | bundles/core/src/main/java/com/adobe/cq/wcm/core/components/internal/servlets/CoreFileDownloadServlet.java:133-137 | a found `dam:Asset` whose name differs from the suffix file name, even ignoring case, is a 404 |
| CoreFileDownload.LookupFailureIsNotFound | bundles/core/src/main/java/com/adobe/cq/wcm/core/components/internal/servlets/CoreFileDownloadServlet.java:124-131 | with a well-formed suffix, every kind of lookup failure gives the same 404 |
| Dam.FindDownloadableResource | bundles/core/src/main/java/com/adobe/cq/wcm/core/components/internal/servlets/CoreFileDownloadServlet.java:198-223 | the lookup (the same in both servlets) yields `None` for a missing session, an unknown id, a null node, a repository error or an unresolvable path, and otherwise yields the resource at the node's path |
| CoreFileDownload.Disposition | bundles/core/src/main/java/com/adobe/cq/wcm/core/components/internal/servlets/CoreFileDownloadServlet.java:177-189 | the header value is `inline` unless downloads are forced, in which case it starts with `attachment` (followed by `; filename="<name>"` for a non-blank name) |
| CoreFileDownload.DispositionRoundTrip | bundles/core/src/main/java/com/adobe/cq/wcm/core/components/internal/servlets/CoreFileDownloadServlet.java:177-183 | the forced value of a non-blank name reads back as that name exactly when the name holds no quote and no backslash, since it is not escaped |
| CoreFileDownload.DispositionWithoutFilename | bundles/core/src/main/java/com/adobe/cq/wcm/core/components/internal/servlets/CoreFileDownloadServlet.java:178-187 | without forcing, the value carries no file name |
| CoreFileDownload.Copied | bundles/core/src/main/java/com/adobe/cq/wcm/core/components/internal/servlets/CoreFileDownloadServlet.java:191-192 | a copy writes the whole data, or a prefix of it when it fails |
| CoreFileDownload.Respond | bundles/core/src/main/java/com/adobe/cq/wcm/core/components/internal/servlets/CoreFileDownloadServlet.java:96-196 | the response state each decision leaves: a 404 sets the status and the error flag; a resource that is not an asset, and a size overflow, leave the state as it was; serving sets the length when positive, the type and the disposition, and appends the copied bytes; its properties are `NotFoundSetsOnlyStatus`, `NotAnAssetIff` and `ServedResponse` |
| CoreFileDownload.OutcomeOf | bundles/core/src/main/java/com/adobe/cq/wcm/core/components/internal/servlets/CoreFileDownloadServlet.java:147-196 | what escapes doGet: the arithmetic failure on an overflowing size, the I/O failure of a failed copy while serving, nothing otherwise |
| CoreFileDownload.NotFoundSetsOnlyStatus | bundles/core/src/main/java/com/adobe/cq/wcm/core/components/internal/servlets/CoreFileDownloadServlet.java:100-131 | a 404 changes only the status and the error flag: no header, no body |
| CoreFileDownload.ServedResponse | bundles/core/src/main/java/com/adobe/cq/wcm/core/components/internal/servlets/CoreFileDownloadServlet.java:170-196 | a served response keeps its status; its content type is the rendition's; it has a content length exactly when the size is positive; its disposition is built from the suffix file name; and its body is the rendition's bytes when the copy succeeds |
| CoreFileDownload.MissingSuffix | bundles/core/src/test/java/com/adobe/cq/wcm/core/components/internal/servlets/CoreFileDownloadServletTest.java:93-102 | the empty suffix is a 404 |
| CoreFileDownload.SuffixWithTooFewParts | bundles/core/src/test/java/com/adobe/cq/wcm/core/components/internal/servlets/CoreFileDownloadServletTest.java:105-114 | `/Download_Test_PDF.pdf` splits into two parts and is a 404 |
| CoreFileDownload.MissingUuid | bundles/core/src/test/java/com/adobe/cq/wcm/core/components/internal/servlets/CoreFileDownloadServletTest.java:117-126 | `//Download_Test_PDF.pdf` has a blank id and is a 404 |
| CoreFileDownload.MissingFilename | bundles/core/src/test/java/com/adobe/cq/wcm/core/components/internal/servlets/CoreFileDownloadServletTest.java:129-138 | `/<uuid>/` loses its trailing empty part and is a 404 |
| CoreFileDownload.FoundAssetServed | bundles/core/src/main/java/com/adobe/cq/wcm/core/components/internal/servlets/CoreFileDownloadServlet.java:113-161 | a slash-free non-blank id and file name that find a `dam:Asset` of that name with an original rendition get that rendition served |
| CoreFileDownload.PdfDownload | bundles/core/src/test/java/com/adobe/cq/wcm/core/components/internal/servlets/CoreFileDownloadServletTest.java:141-159 | the test's PDF asset, requested by its id and name, is served |
| CoreFileDownload.PdfResponse | bundles/core/src/test/java/com/adobe/cq/wcm/core/components/internal/servlets/CoreFileDownloadServletTest.java:141-159 | the served PDF response has type `application/pdf`, carries the file name when downloads are forced, and has the rendition's bytes as its body, which is what the test's commented-out assertion would check |
| CoreFileDownload.OtherFilename | bundles/core/src/main/java/com/adobe/cq/wcm/core/components/internal/servlets/CoreFileDownloadServlet.java:133-137 | a file name other than the asset's name is a 404 |
| CoreFileDownload.FilenameCaseIgnored | bundles/core/src/main/java/com/adobe/cq/wcm/core/components/internal/servlets/CoreFileDownloadServlet.java:134-141 | a file name differing from the asset's only in case is served, with the disposition using the URL's spelling |
| CoreFileDownload.Copy | bundles/core/src/main/java/com/adobe/cq/wcm/core/components/internal/servlets/CoreFileDownloadServlet.java:191-195 | the body grows by the bytes copied, all of them unless the copy fails, and the outcome is an I/O failure exactly when it does |
| CoreFileDownload.CoreFileDownloadServlet.constructor | bundles/core/src/main/java/com/adobe/cq/wcm/core/components/internal/servlets/CoreFileDownloadServlet.java:93 | `forceDownload` starts false |
| CoreFileDownload.CoreFileDownloadServlet.Activate | bundles/core/src/main/java/com/adobe/cq/wcm/core/components/internal/servlets/CoreFileDownloadServlet.java:225-229 | activation or modification replaces `forceDownload` with the configured value |
| CoreFileDownload.CoreFileDownloadServlet.DoGet | bundles/core/src/main/java/com/adobe/cq/wcm/core/components/internal/servlets/CoreFileDownloadServlet.java:96-145 | the response ends as `Respond` of `Decide`'s decision; the outcome is the copy's I/O failure or the size overflow; a stream is taken exactly when an original rendition is reached, and it is closed when served and left open on overflow |
| CoreFileDownload.CoreFileDownloadServlet.StreamAsset | bundles/core/src/main/java/com/adobe/cq/wcm/core/components/internal/servlets/CoreFileDownloadServlet.java:147-168 | the response ends as `Respond` of `AssetDecision`: a resource that does not adapt, or has no original rendition, is a 404; a size outside the int range fails before any header is set and leaves the stream open; otherwise the response is streamed and the stream is closed |
| CoreFileDownload.CoreFileDownloadServlet.Stream | bundles/core/src/main/java/com/adobe/cq/wcm/core/components/internal/servlets/CoreFileDownloadServlet.java:170-196 | the length is set when positive, then the type and the disposition; the body is appended and the stream is closed |
| PathSplit.Split | bundles/core/src/main/java/com/adobe/cq/wcm/core/components/internal/servlets/CoreFileDownloadServlet.java:106 | the parts are slash-free, and a string holding a slash never splits into parts whose last one is empty: trailing empty parts are dropped |
| PathSplit.SplitJoin | bundles/core/src/main/java/com/adobe/cq/wcm/core/components/internal/servlets/CoreFileDownloadServlet.java:106 | slash-free parts whose last is not empty, joined by slashes, split back into themselves |
| PathSplit.SplitJoinSlashes | bundles/core/src/main/java/com/adobe/cq/wcm/core/components/internal/servlets/CoreFileDownloadServlet.java:106 | slash-free parts whose last one is not empty, joined by slashes and followed by any run of slashes, split back into themselves |
| PathSplit.SplitInverse | bundles/core/src/main/java/com/adobe/cq/wcm/core/components/internal/servlets/CoreFileDownloadServlet.java:106 | every string containing a slash is its parts joined by slashes, followed by the slashes of the dropped trailing empty parts |
| Text.EqualsIgnoreCaseIsLowerEquality | bundles/core/src/main/java/com/adobe/cq/wcm/core/components/internal/servlets/CoreFileDownloadServlet.java:134 | two names are equal ignoring case exactly when their lower-case forms are equal |
| FileDownload.ParseSuffix | bundles/core/src/main/java/com/adobe/cq/wcm/core/components/internal/servlets/FileDownloadServlet.java:63-77 | an accepted suffix holds a slash; the id and file name are slash-free and the file name is not empty |
| FileDownload.ParseJoinedSuffix | bundles/core/src/main/java/com/adobe/cq/wcm/core/components/internal/servlets/FileDownloadServlet.java:69-77 | any slash-free leading part, id and non-empty file name joined by slashes yield back the id and the file name, even when they are blank |
| FileDownload.StricterParserAgrees | bundles/core/src/main/java/com/adobe/cq/wcm/core/components/internal/servlets/FileDownloadServlet.java:63-77 | the newer servlet accepts exactly those suffixes this one accepts whose id and file name are not blank, and it reads the same parts from them |
| FileDownload.EmptyIdReachesLookup | bundles/core/src/main/java/com/adobe/cq/wcm/core/components/internal/servlets/FileDownloadServlet.java:76-81 | `//<name>` reaches the lookup here with an empty id, while the newer servlet rejects it |
| FileDownload.Decide | bundles/core/src/main/java/com/adobe/cq/wcm/core/components/internal/servlets/FileDownloadServlet.java:58-89 | a malformed suffix is a 404; a found resource is in the store |
| FileDownload.FoundIffLookupSucceeds | bundles/core/src/main/java/com/adobe/cq/wcm/core/components/internal/servlets/FileDownloadServlet.java:80-89 | with a well-formed suffix, the resource is found exactly when the lookup succeeds, and any failure is a 404 |
| FileDownload.NewerServletLooksUpTheSame | bundles/core/src/main/java/com/adobe/cq/wcm/core/components/internal/servlets/FileDownloadServlet.java:69-89 | whatever the newer servlet does not reject with a 404, this one finds too, and it is the same resource |
| FileDownload.DoGet | bundles/core/src/main/java/com/adobe/cq/wcm/core/components/internal/servlets/FileDownloadServlet.java:58-89 | a 404 sets only the status and the error flag; a found resource leaves the response untouched |
| Download.DownloadUrlFor | bundles/core/src/main/java/com/adobe/cq/wcm/core/components/internal/models/v1/DownloadImpl.java:151-166 | a URL exists exactly when neither the id nor the file name is blank, and it starts with `/bin/download.file` |
| Download.DownloadUrlRoundTrip | bundles/core/src/main/java/com/adobe/cq/wcm/core/components/internal/models/v1/DownloadImpl.java:157-164 | for a slash-free non-blank id and file name, what the URL leaves as the servlet's suffix parses back into that id and file name |
| Download.DownloadUrlServesAsset | bundles/core/src/main/java/com/adobe/cq/wcm/core/components/internal/models/v1/DownloadImpl.java:200-203 | the URL built from a DAM asset's id and name makes the servlet serve that asset's original rendition |
| Download.LastModifiedOf | bundles/core/src/main/java/com/adobe/cq/wcm/core/components/internal/models/v1/DownloadImpl.java:191-198 | the timestamp is the maximum of the component's (or the current value) and the asset's |
| Download.ThumbnailPath | bundles/core/src/main/java/com/adobe/cq/wcm/core/components/internal/models/v1/DownloadImpl.java:214-223 | the thumbnail path starts with the mapped path followed by `.coreimg.jpeg` |
| Download.ThumbnailTimestamp | bundles/core/src/main/java/com/adobe/cq/wcm/core/components/internal/models/v1/DownloadImpl.java:218-221 | the `/<lastModified>.jpeg` segment is present exactly when the timestamp is positive, and it spells the timestamp in decimal |
| Download.ThumbnailTimestampInjective | bundles/core/src/main/java/com/adobe/cq/wcm/core/components/internal/models/v1/DownloadImpl.java:218-221 | two positive timestamps give the same thumbnail only when they are equal |
| Text.DecimalRoundTrip | bundles/core/src/main/java/com/adobe/cq/wcm/core/components/internal/models/v1/DownloadImpl.java:220 | the decimal spelling of a timestamp reads back as the timestamp, so distinct timestamps are spelled differently |
| Download.DamFieldsKeepStyle | bundles/core/src/main/java/com/adobe/cq/wcm/core/components/internal/models/v1/DownloadImpl.java:190-237 | DAM mode leaves the fields set by the design policy alone |
| Download.UploadedFieldsKeepStyle | bundles/core/src/main/java/com/adobe/cq/wcm/core/components/internal/models/v1/DownloadImpl.java:168-188 | uploaded mode leaves the fields set by the design policy alone |
| Download.DamModeFields | bundles/core/src/main/java/com/adobe/cq/wcm/core/components/internal/models/v1/DownloadImpl.java:190-237 | in DAM mode the URL comes from the asset's id and name; the format is `dc:format`; a size is present exactly when `dam:size` is; the timestamp is the later one; the thumbnail carries it; title and description come from the asset only when asked for and not blank |
| Download.FileReferenceExcludesUpload | bundles/core/src/main/java/com/adobe/cq/wcm/core/components/internal/models/v1/DownloadImpl.java:127-148 | a non-blank file reference selects DAM mode alone, and the uploaded file never affects the result |
| Download.UnresolvedReference | bundles/core/src/main/java/com/adobe/cq/wcm/core/components/internal/models/v1/DownloadImpl.java:127-142 | a reference that is not an asset leaves URL, file name, format, size and thumbnail unset, and title and description as authored |
| Download.UploadedModeFields | bundles/core/src/main/java/com/adobe/cq/wcm/core/components/internal/models/v1/DownloadImpl.java:168-188 | in uploaded mode the id comes from `jcr:content` and the file name from `fileName`; the format defaults to `""`; a size is present exactly when the content length is positive; there is no thumbnail |
| Download.NoFile | bundles/core/src/main/java/com/adobe/cq/wcm/core/components/internal/models/v1/DownloadImpl.java:143-148 | without a reference and without an uploaded file that has `jcr:content`, no file field is set |
| Download.StyleHandling | bundles/core/src/main/java/com/adobe/cq/wcm/core/components/internal/models/v1/DownloadImpl.java:117-126 | without a style, the display flags are false, there is no title type and the action text is as authored; with a style, the style supplies the title type and the flags, and supplies the action text only when the authored one is blank |
| Download.InitKeepsStyle | bundles/core/src/main/java/com/adobe/cq/wcm/core/components/internal/models/v1/DownloadImpl.java:117-148 | whichever mode fills in the file fields, the design-policy fields stay as the policy set them |
| Download.ApplyStyle | bundles/core/src/main/java/com/adobe/cq/wcm/core/components/internal/models/v1/DownloadImpl.java:117-126 | the design policy: with a style, the title type and the four display flags from the style (false when unset), and the style's action text only when the authored one is blank; without a style, nothing changes; its properties are `StyleHandling` and `InitKeepsStyle` |
| Download.WithDownloadUrl | bundles/core/src/main/java/com/adobe/cq/wcm/core/components/internal/models/v1/DownloadImpl.java:151-166 | createDownloadUrl: the URL becomes `DownloadUrlFor` of the id and file name when that exists, and stays as it was otherwise |
| Download.UploadedFields | bundles/core/src/main/java/com/adobe/cq/wcm/core/components/internal/models/v1/DownloadImpl.java:168-188 | setFieldsForUploadedFile: nothing without `jcr:content`; otherwise the URL from its id and the component's `fileName`, that file name, the content type ("" when absent) as format, and a size only for a positive length; its properties are `UploadedModeFields` and `UploadedFieldsKeepStyle` |
| Download.DamFields | bundles/core/src/main/java/com/adobe/cq/wcm/core/components/internal/models/v1/DownloadImpl.java:190-237 | setFieldsForDamAsset: the timestamp and the asset's name, then the URL from the asset's id and name, then `AssetFields` on the mapped component path; its properties are `DamModeFields` and `DamFieldsKeepStyle` |
| Download.AssetFields | bundles/core/src/main/java/com/adobe/cq/wcm/core/components/internal/models/v1/DownloadImpl.java:205-236 | the fields read from the asset: `dc:format`, the displayed `dam:size` when present, the thumbnail, and the title and description from the asset only when asked for and not blank |
| Download.Init | bundles/core/src/main/java/com/adobe/cq/wcm/core/components/internal/models/v1/DownloadImpl.java:112-149 | the fields after initModel: the design policy, then DAM mode for a non-blank reference to an asset, or uploaded mode for an upload with `jcr:content`; its properties are the `DamModeFields`, `UploadedModeFields`, `UnresolvedReference`, `NoFile`, `FileReferenceExcludesUpload` and `StyleHandling` lemmas |
| Download.DownloadModel.constructor | bundles/core/src/main/java/com/adobe/cq/wcm/core/components/internal/models/v1/DownloadImpl.java:77-110 | the fields start as injected, with nothing derived yet |
| Download.DownloadModel.InitModel | bundles/core/src/main/java/com/adobe/cq/wcm/core/components/internal/models/v1/DownloadImpl.java:112-149 | the model's fields end as `Init` of the injected values, the style and the store |
| Download.DownloadModel.ApplyCurrentStyle | bundles/core/src/main/java/com/adobe/cq/wcm/core/components/internal/models/v1/DownloadImpl.java:117-126 | the fields end as the design policy applied to their old values |
| Download.DownloadModel.CreateDownloadUrl | bundles/core/src/main/java/com/adobe/cq/wcm/core/components/internal/models/v1/DownloadImpl.java:151-166 | the URL is set to `DownloadUrlFor` of the id and file name, and nothing else changes |
| Download.DownloadModel.SetFieldsForUploadedFile | bundles/core/src/main/java/com/adobe/cq/wcm/core/components/internal/models/v1/DownloadImpl.java:168-188 | the fields end as the uploaded-mode fields of their old values |
| Download.DownloadModel.SetFieldsForDamAsset | bundles/core/src/main/java/com/adobe/cq/wcm/core/components/internal/models/v1/DownloadImpl.java:190-237 | the fields end as the DAM-mode fields of their old values |
| Download.DownloadModel.UpdateLastModified | bundles/core/src/main/java/com/adobe/cq/wcm/core/components/internal/models/v1/DownloadImpl.java:191-198 | the timestamp becomes `LastModifiedOf` and nothing else changes |
| Download.DownloadModel.SetAssetFields | bundles/core/src/main/java/com/adobe/cq/wcm/core/components/internal/models/v1/DownloadImpl.java:205-236 | format, size, thumbnail, title and description end as `AssetFields` of their old values |
| Download.DownloadModel.SetFormatAndSize | bundles/core/src/main/java/com/adobe/cq/wcm/core/components/internal/models/v1/DownloadImpl.java:205-211 | the format is `dc:format`, and the size is the displayed `dam:size` when that is present |
| Download.DownloadModel.SetImagePath | bundles/core/src/main/java/com/adobe/cq/wcm/core/components/internal/models/v1/DownloadImpl.java:214-223 | the thumbnail becomes `ThumbnailPath` of the mapped path and the timestamp |
| Download.DownloadModel.SetTitleAndDescription | bundles/core/src/main/java/com/adobe/cq/wcm/core/components/internal/models/v1/DownloadImpl.java:225-236 | the title and the description are replaced by the asset's only when asked for and not blank |
| Video.AllowedVideoIsAllowList | bundles/core/src/main/java/com/adobe/cq/wcm/core/components/models/Video.java:35 | the blank check adds nothing to the allow-list check, because no entry of the five-entry list is blank |
| Video.RenditionSources | bundles/core/src/main/java/com/adobe/cq/wcm/core/components/internal/models/v1/VideoImpl.java:122-130 | the loop adds at most one source per rendition; which sources it adds, and in what order, is stated by `RenditionSourcesAppend`, `RenditionSourcesSound`, `RenditionSourcesComplete` and `RenditionSelection` |
| Video.RenditionSourcesAppend | bundles/core/src/main/java/com/adobe/cq/wcm/core/components/internal/models/v1/VideoImpl.java:123-130 | the sources from two runs of renditions are the first run's sources followed by the second's, so order is kept |
| Video.RenditionSourcesSound | bundles/core/src/main/java/com/adobe/cq/wcm/core/components/internal/models/v1/VideoImpl.java:124-129 | every added source comes from an eligible rendition of the list |
| Video.RenditionSourcesComplete | bundles/core/src/main/java/com/adobe/cq/wcm/core/components/internal/models/v1/VideoImpl.java:124-129 | every eligible rendition of the list has its source added |
| Video.RenditionSelection | bundles/core/src/main/java/com/adobe/cq/wcm/core/components/internal/models/v1/VideoImpl.java:122-130 | a rendition's source is added exactly when its MIME type is not blank, not the asset's and on the allow-list; every added type is allowed and differs from the asset's |
| Video.EarlyReturn | bundles/core/src/main/java/com/adobe/cq/wcm/core/components/internal/models/v1/VideoImpl.java:98-119 | a blank reference, an unresolvable or non-asset reference, or a MIME type that is blank or not allowed leaves no sources and no poster, and leaves title, description and preload as authored |
| Video.LoadedSources | bundles/core/src/main/java/com/adobe/cq/wcm/core/components/internal/models/v1/VideoImpl.java:121-130 | on success the first source is the asset's own; the rest are exactly the eligible renditions' sources in order; every type is allowed and none after the first is the asset's |
| Video.LoadedFields | bundles/core/src/main/java/com/adobe/cq/wcm/core/components/internal/models/v1/VideoImpl.java:132-154 | on success the poster is the preview's path unless there is no preview or the preview is the original; title and description come from DAM only when asked for and not blank; a blank preload becomes `none` |
| Video.FlagsAsAuthored | bundles/core/src/main/java/com/adobe/cq/wcm/core/components/internal/models/v1/VideoImpl.java:83-90 | autoplay, loop and hide-controls are the authored booleans, false when absent |
| Video.SourceOfAsset | bundles/core/src/main/java/com/adobe/cq/wcm/core/components/internal/models/v1/VideoSourceImpl.java:27-29 | the source built from an asset is the asset's path and MIME type |
| Video.SourceOfRendition | bundles/core/src/main/java/com/adobe/cq/wcm/core/components/internal/models/v1/VideoSourceImpl.java:31-33 | the source built from a rendition is the rendition's path and MIME type |
| Video.VideoAsset | bundles/core/src/main/java/com/adobe/cq/wcm/core/components/internal/models/v1/VideoImpl.java:98-119 | the asset initModel works from: none for a blank reference, an unresolvable or non-asset reference, or a MIME type that is blank or not allowed; its properties are `EarlyReturn`, `LoadedSources` and `LoadedFields` |
| Video.Poster | bundles/core/src/main/java/com/adobe/cq/wcm/core/components/internal/models/v1/VideoImpl.java:132-137 | the poster is the image preview's path, absent when there is no preview or it is the original |
| Video.Loaded | bundles/core/src/main/java/com/adobe/cq/wcm/core/components/internal/models/v1/VideoImpl.java:121-154 | the success path: the asset's source and the eligible renditions' sources appended, the poster, the title and description from DAM, and preload defaulting to `none` |
| Video.Init | bundles/core/src/main/java/com/adobe/cq/wcm/core/components/internal/models/v1/VideoImpl.java:96-156 | the fields after initModel: as injected on every early return, `Loaded` otherwise; its properties are `EarlyReturn`, `LoadedSources`, `LoadedFields` and `FlagsAsAuthored` |
| Video.VideoModel.constructor | bundles/core/src/main/java/com/adobe/cq/wcm/core/components/internal/models/v1/VideoImpl.java:65-94 | the fields start as injected, with no sources and no poster |
| Video.VideoModel.InitModel | bundles/core/src/main/java/com/adobe/cq/wcm/core/components/internal/models/v1/VideoImpl.java:96-156 | the model's fields end as `Init` of the injected values and the store |
| Video.VideoModel.LoadAsset | bundles/core/src/main/java/com/adobe/cq/wcm/core/components/internal/models/v1/VideoImpl.java:121-154 | the fields end as the success-path values computed from the old ones |
| Video.VideoModel.AddSources | bundles/core/src/main/java/com/adobe/cq/wcm/core/components/internal/models/v1/VideoImpl.java:121-130 | the source list grows by the asset's source followed by the eligible renditions' sources |
| Video.VideoModel.SetPoster | bundles/core/src/main/java/com/adobe/cq/wcm/core/components/internal/models/v1/VideoImpl.java:132-137 | the poster becomes `Poster` of the asset, and nothing else changes |
| Video.VideoModel.SetTitleAndDescription | bundles/core/src/main/java/com/adobe/cq/wcm/core/components/internal/models/v1/VideoImpl.java:139-150 | title and description are replaced by the DAM values only when asked for and not blank |
| ChildrenEditor.MoveBeforeMembers | bundles/core/src/main/java/com/adobe/cq/wcm/core/components/internal/servlets/ChildrenEditorServlet.java:84-89 | `orderBefore` neither adds nor loses a child |
| ChildrenEditor.MoveBeforeDistinct | bundles/core/src/main/java/com/adobe/cq/wcm/core/components/internal/servlets/ChildrenEditorServlet.java:84-89 | `orderBefore` keeps child names distinct |
| ChildrenEditor.MoveBeforeKeepsOthers | bundles/core/src/main/java/com/adobe/cq/wcm/core/components/internal/servlets/ChildrenEditorServlet.java:84-89 | `orderBefore` keeps the relative order of all children it does not move |
| ChildrenEditor.MoveBefore | bundles/core/src/main/java/com/adobe/cq/wcm/core/components/internal/servlets/ChildrenEditorServlet.java:84-89 | JCR `orderBefore` on the child list: the source moves to just before the destination, or to the end when the destination is null, and a move before itself changes nothing; its properties are the three `MoveBefore…` lemmas |
| ChildrenEditor.Step | bundles/core/src/main/java/com/adobe/cq/wcm/core/components/internal/servlets/ChildrenEditorServlet.java:78-93 | one pass of the reorder loop: a refused missing name changes nothing; otherwise the name is created if missing, then moved before the next name (or to the end for the last) unless the move fails, which keeps the creation |
| ChildrenEditor.OrderFrom | bundles/core/src/main/java/com/adobe/cq/wcm/core/components/internal/servlets/ChildrenEditorServlet.java:77-94 | the reorder loop run from the last index down to a given one; its properties are `OrderedSuffix` and the `OrderFrom…` lemmas |
| ChildrenEditor.AfterPost | bundles/core/src/main/java/com/adobe/cq/wcm/core/components/internal/servlets/ChildrenEditorServlet.java:60-96 | the child list after doPost: the deletions when the parameter is non-empty, then the reorder loop when the ordered parameter is non-empty and the container is a node; its properties are the `Post…` lemmas |
| ChildrenEditor.Without | bundles/core/src/main/java/com/adobe/cq/wcm/core/components/internal/servlets/ChildrenEditorServlet.java:62-70 | the delete loop's effect: the list less the named children, the rest in their order, never longer; membership is `WithoutMembers` |
| ChildrenEditor.Created | bundles/core/src/main/java/com/adobe/cq/wcm/core/components/internal/servlets/ChildrenEditorServlet.java:81-83 | `addNode` for a missing name appends it, and an existing name leaves the list as it is; `CreatedWithout` states that the name is present afterwards and nothing else changes |
| ChildrenEditor.StepMembers | bundles/core/src/main/java/com/adobe/cq/wcm/core/components/internal/servlets/ChildrenEditorServlet.java:78-93 | one pass loses no child; the name it orders exists afterwards unless it is refused; and no name other than that one appears |
| ChildrenEditor.OrderFromDistinct | bundles/core/src/main/java/com/adobe/cq/wcm/core/components/internal/servlets/ChildrenEditorServlet.java:77-94 | the reorder loop keeps child names distinct |
| ChildrenEditor.OrderFromMembers | bundles/core/src/main/java/com/adobe/cq/wcm/core/components/internal/servlets/ChildrenEditorServlet.java:77-94 | after the loop every earlier child remains, every ordered name that is not refused exists, and every child is an earlier one or one of the ordered names |
| ChildrenEditor.OrderFromKeepsOthers | bundles/core/src/main/java/com/adobe/cq/wcm/core/components/internal/servlets/ChildrenEditorServlet.java:77-94 | whatever fails, children not named keep their relative order |
| ChildrenEditor.OrderedSuffix | bundles/core/src/main/java/com/adobe/cq/wcm/core/components/internal/servlets/ChildrenEditorServlet.java:77-89 | the loop invariant: with distinct, accepted names on an orderable node, after index i the names from i on end the child list in the given order, after the other children in their old order |
| ChildrenEditor.PostOrdersChildren | bundles/core/src/main/java/com/adobe/cq/wcm/core/components/internal/servlets/ChildrenEditorServlet.java:61-96 | after `doPost`, the children are the old ones minus the deleted and ordered names, followed by the ordered names in their given order |
| ChildrenEditor.PostKeepsOthers | bundles/core/src/main/java/com/adobe/cq/wcm/core/components/internal/servlets/ChildrenEditorServlet.java:61-96 | children named in neither list keep their relative order, and no such child appears or disappears |
| ChildrenEditor.PostMembers | bundles/core/src/main/java/com/adobe/cq/wcm/core/components/internal/servlets/ChildrenEditorServlet.java:61-96 | every child not deleted remains; every accepted ordered name exists afterwards, a deleted one included; without a node only the deletions happen |
| ChildrenEditor.Container.constructor | bundles/core/src/main/java/com/adobe/cq/wcm/core/components/internal/servlets/ChildrenEditorServlet.java:57-58 | the container holds the given distinct child names |
| ChildrenEditor.Container.Delete | bundles/core/src/main/java/com/adobe/cq/wcm/core/components/internal/servlets/ChildrenEditorServlet.java:64-67 | deleting a child removes exactly that name and keeps the rest in order |
| ChildrenEditor.Container.AddNode | bundles/core/src/main/java/com/adobe/cq/wcm/core/components/internal/servlets/ChildrenEditorServlet.java:81-83 | `addNode` succeeds exactly when the name is neither refused nor already a child, and it appends the name |
| ChildrenEditor.Container.OrderBefore | bundles/core/src/main/java/com/adobe/cq/wcm/core/components/internal/servlets/ChildrenEditorServlet.java:84-89 | `orderBefore` succeeds exactly when the node is orderable and both names are children (or the destination is absent), and it then moves the source before the destination or to the end |
| ChildrenEditor.DoPost | bundles/core/src/main/java/com/adobe/cq/wcm/core/components/internal/servlets/ChildrenEditorServlet.java:51-98 | the container ends as `AfterPost` of its old children and the parameters, with distinct names |
| ChildrenEditor.DeleteChildren | bundles/core/src/main/java/com/adobe/cq/wcm/core/components/internal/servlets/ChildrenEditorServlet.java:62-70 | the children end as the old ones without the named ones, in their old order; absent names are ignored |
| ChildrenEditor.OrderChildren | bundles/core/src/main/java/com/adobe/cq/wcm/core/components/internal/servlets/ChildrenEditorServlet.java:74-96 | the reverse loop leaves the children as `OrderFrom` index 0 |
| ChildrenEditor.OrderStep | bundles/core/src/main/java/com/adobe/cq/wcm/core/components/internal/servlets/ChildrenEditorServlet.java:78-93 | one pass creates the name if needed and moves it; a failing call ends the pass, and whatever it already changed stays |

## Left out

- Sling, JCR and OSGi wiring are not modelled: component registration, Sling Models injection, the Jackson exporter, `getExportedType`, and all logging. Injected values are fields of a `Properties` datatype, and the servlet configuration is one boolean.
- The lookup machinery (`Session.getNodeByIdentifier`, `getResource`, `adaptTo`, `isResourceType`) is collapsed into a `Repository` value, in which every kind of failure gives `None`.
- `resourceResolver.map` and `FileUtils.byteCountToDisplaySize` are not visible code. They are function parameters, so the model states only whether a size is present.
- Real streams are absent: `IOUtils.copy` and `closeQuietly` over real I/O are not modelled. The bytes are a sequence, and a copy failure is a parameter saying how many bytes were copied first.
- CoreFileDownload.CoreFileDownloadServlet.StreamAsset: when `Math.toIntExact` fails, the stream already obtained is left open. This is modelled as written, and the contract says nothing about closing in that case.
- The Content-Disposition value is built without quote escaping, as in the code; `DispositionRoundTrip` shows that a name holding a quote or a backslash does not read back. Escaping is not added to the model.
- `StringUtils.isBlank` uses an explicit whitespace predicate: space, tab, line feed, vertical tab, form feed, carriage return and the four separator controls U+001C to U+001F. `equalsIgnoreCase` is an ASCII fold. Full Unicode whitespace and case folding are not modelled.
- A `Calendar` is an integer number of milliseconds. A Java `long` is an unbounded integer, because timestamps do not come near its limits.
- In DAM mode the code casts `dam:size` to `Long`, which throws when the value has another type. The model treats the size as a number when present.
- Video.java declares default getters that all throw `UnsupportedOperationException`. An interface with throwing defaults has no counterpart here; the view model's fields and its `View` function play the getters' part.
- The allow-list in Video.java is unmodifiable. In the model it is an immutable sequence constant, so there is nothing to prove about it.
- A Java `null` MIME type is modelled as the empty string, which is blank.
- The comparison of the preview rendition with the original uses `Rendition.equals`. The model uses value equality of the two renditions.
- The getters of `DownloadImpl`, `VideoImpl` and `VideoSourceImpl` are plain reads of fields and are not modelled as members. `VideoSource` is an immutable datatype whose fields `src` and `mimeType` play the part of the getters of VideoSourceImpl.java:40-48, and whose own constructor is the `(src, type)` constructor of lines 35-38, which stores both values as given.
- The per-step `resolver.commit()` calls and the concurrency concern noted at ChildrenEditorServlet.java:79-80 are not modelled. The container is a single-threaded list of distinct child names that changes immediately.
- ChildrenEditor.DoPost does not model the `PersistenceException` that `resolver.delete` or `resolver.commit()` can throw (ChildrenEditorServlet.java:66-67, and the commit at line 93 outside the try). Such an exception ends `doPost` and skips the remaining steps. The model has every delete and commit succeed; only `addNode` and `orderBefore` fail, and they are caught.
- Same-name siblings and relative paths in `getChild` are not modelled. Child names are plain distinct names. The JCR implementation's reasons for refusing `addNode` are a set of refused names, and an unorderable node makes every `orderBefore` fail.
- The PDF download test's byte comparison is commented out in the test source, so the model draws no evidence from it. `PdfResponse` states what that comparison would check.
- Dam.FromAsset (the title and description fallback helper) has no contract of its own. Its behaviour is stated through `DamModeFields` and `LoadedFields`.
