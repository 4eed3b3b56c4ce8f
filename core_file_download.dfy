/** CoreFileDownloadServlet: the GET endpoint at /bin/download.file that
    resolves the id in the suffix /<id>/<filename> to an asset and streams
    the asset's original rendition. */
module CoreFileDownload {
  import opened Wrappers
  import opened Text
  import opened PathSplit
  import opened Http
  import opened Dam

  const EXTENSION := "file"
  const PATH := "/bin/download"
  const CONTENT_DISPOSITION_HEADER := "Content-Disposition"
  const ASSET_RESOURCE_TYPE := "dam:Asset"
  const ATTACHMENT_DISPOSITION := "attachment"
  const INLINE_DISPOSITION := "inline"
  const FILENAME_PARAMETER := "; filename=\""

  /** A Java int. */
  type int32 = x: int | -0x8000_0000 <= x < 0x8000_0000

  predicate InIntRange(x: int) {
    -0x8000_0000 <= x < 0x8000_0000
  }

  /** What escapes doGet: the IOException of a failed copy, or the
      ArithmeticException of Math.toIntExact. */
  datatype Failure = IOFailure | ArithmeticFailure

  /** The servlet's OSGi configuration. */
  datatype Configuration = Configuration(forceDownload: bool)

  const DefaultConfiguration := Configuration(false)

  // ---------------------------------------------------------------------
  // The suffix

  /** What the checks of the suffix leave: an id and a file name, or nothing. */
  datatype SuffixParts = Malformed | Parts(uuid: string, filename: string)

  /** The suffix checks of doGet: a blank suffix, a split into other than three
      parts, and a blank id or file name are all malformed. */
  function ParseSuffix(suffix: Option<string>): (r: SuffixParts)
    ensures r.Parts? ==> suffix.Some? && '/' in suffix.value
    ensures r.Parts? ==> !IsBlank(r.uuid) && !IsBlank(r.filename)
    ensures r.Parts? ==> '/' !in r.uuid && '/' !in r.filename
  {
    if Blank(suffix) then Malformed
    else
      var parts := Split(suffix.value);
      if |parts| != 3 then Malformed
      else if IsBlank(parts[1]) || IsBlank(parts[2]) then Malformed
      else Parts(parts[1], parts[2])
  }

  /** Every accepted suffix is some slash-free leading part (never checked),
      the id, the file name, and possibly a run of trailing slashes. */
  lemma ParsedSuffixShape(suffix: Option<string>)
    requires ParseSuffix(suffix).Parts?
    ensures var p := ParseSuffix(suffix);
            var lead := Split(suffix.value)[0];
            '/' !in lead &&
            suffix.value == lead + "/" + p.uuid + "/" + p.filename + Slashes(|Pieces(suffix.value)| - 3)
  {
    var s := suffix.value;
    var parts := Split(s);
    SplitInverse(s);
    assert parts == [parts[0]] + [parts[1], parts[2]];
    JoinAppend([parts[0]], [parts[1], parts[2]]);
    JoinAppend([parts[1]], [parts[2]]);
  }

  /** Conversely, a slash-free leading part, a non-blank slash-free id and a
      non-blank slash-free file name, joined by slashes and followed by any
      run of trailing slashes, give back the id and the file name. */
  lemma ParseJoinedSuffix(lead: string, uuid: string, filename: string, m: nat)
    requires '/' !in lead && '/' !in uuid && '/' !in filename
    requires !IsBlank(uuid) && !IsBlank(filename)
    ensures ParseSuffix(Some(lead + "/" + uuid + "/" + filename + Slashes(m))) == Parts(uuid, filename)
  {
    var parts := [lead, uuid, filename];
    JoinThree(lead, uuid, filename);
    var k :| 0 <= k < |filename| && !IsWhitespace(filename[k]);
    SplitJoinSlashes(parts, m);
    var s := Join(parts) + Slashes(m);
    assert s[|lead|] == '/';
  }

  // ---------------------------------------------------------------------
  // The decision

  /** How a request ends: a 404; a response left alone (the resource is not
      a dam:Asset); Math.toIntExact throwing on the rendition size after the
      stream was taken; or the original rendition streamed. */
  datatype Decision =
    | NotFound
    | NotAnAsset
    | SizeOverflow(original: Rendition)
    | Serve(original: Rendition, filename: string)

  /** streamAsset's part of the decision, for a dam:Asset resource. */
  function AssetDecision(resource: Resource, filename: string): (d: Decision)
    ensures d.Serve? ==> InIntRange(d.original.size) && d.filename == filename
    ensures d.Serve? || d.SizeOverflow? ==>
              resource.asset.Some? && resource.asset.value.original == Some(d.original)
    ensures resource.asset.None? || resource.asset.value.original.None? ==> d == NotFound
    ensures resource.asset.Some? && resource.asset.value.original.Some? ==>
              (d.Serve? || d.SizeOverflow?) && (d.Serve? <==> InIntRange(resource.asset.value.original.value.size))
  {
    match resource.asset
    case None => NotFound
    case Some(asset) =>
      match asset.original
      case None => NotFound
      case Some(original) =>
        if InIntRange(original.size) then Serve(original, filename) else SizeOverflow(original)
  }

  /** The decision doGet takes, as a function of the suffix and the repository. */
  function Decide(suffix: Option<string>, repo: Repository): (d: Decision)
    ensures ParseSuffix(suffix).Malformed? ==> d == NotFound
    ensures d.Serve? ==> ParseSuffix(suffix).Parts? && ParseSuffix(suffix).filename == d.filename
  {
    match ParseSuffix(suffix)
    case Malformed => NotFound
    case Parts(uuid, filename) =>
      match FindDownloadableResource(repo, uuid)
      case None => NotFound
      case Some(resource) =>
        if ASSET_RESOURCE_TYPE !in resource.resourceTypes then NotAnAsset
        else if !EqualsIgnoreCase(filename, resource.name) then NotFound
        else AssetDecision(resource, filename)
  }

  /** An asset is streamed exactly when the suffix names it, the resource is
      a dam:Asset, its name matches the suffix's file name up to case, and it
      has an original rendition whose size fits an int; it is then that
      rendition, under the suffix's file name. */
  lemma ServedOnlyWhenValid(suffix: Option<string>, repo: Repository)
    ensures var p := ParseSuffix(suffix);
            var found := if p.Parts? then FindDownloadableResource(repo, p.uuid) else None;
            Decide(suffix, repo).Serve? <==>
              && p.Parts? && found.Some?
              && ASSET_RESOURCE_TYPE in found.value.resourceTypes
              && EqualsIgnoreCase(p.filename, found.value.name)
              && found.value.asset.Some? && found.value.asset.value.original.Some?
              && InIntRange(found.value.asset.value.original.value.size)
    ensures var d := Decide(suffix, repo);
            var p := ParseSuffix(suffix);
            d.Serve? ==>
            var found := FindDownloadableResource(repo, p.uuid);
            && p.Parts? && p.filename == d.filename
            && found.Some? && found.value in repo.resources.Values
            && ASSET_RESOURCE_TYPE in found.value.resourceTypes
            && EqualsIgnoreCase(d.filename, found.value.name)
            && found.value.asset.Some? && found.value.asset.value.original == Some(d.original)
            && InIntRange(d.original.size)
  {
  }

  /** A found resource that is not a dam:Asset, and only that, is left alone:
      no error, no header, no body. */
  lemma NotAnAssetIff(suffix: Option<string>, repo: Repository, before: ResponseState, forceDownload: bool,
                      copyFailure: Option<nat>)
    ensures Decide(suffix, repo) == NotAnAsset <==>
              && ParseSuffix(suffix).Parts?
              && var found := FindDownloadableResource(repo, ParseSuffix(suffix).uuid);
                 found.Some? && ASSET_RESOURCE_TYPE !in found.value.resourceTypes
    ensures Decide(suffix, repo) == NotAnAsset ==>
              Respond(before, forceDownload, Decide(suffix, repo), copyFailure) == before
              && OutcomeOf(Decide(suffix, repo), copyFailure) == Pass
  {
  }

  /** A dam:Asset whose name differs from the suffix's file name, even
      ignoring case, is a 404. */
  lemma NameMismatchIsNotFound(suffix: Option<string>, repo: Repository)
    requires ParseSuffix(suffix).Parts?
    requires var found := FindDownloadableResource(repo, ParseSuffix(suffix).uuid);
             && found.Some? && ASSET_RESOURCE_TYPE in found.value.resourceTypes
             && !EqualsIgnoreCase(ParseSuffix(suffix).filename, found.value.name)
    ensures Decide(suffix, repo) == NotFound
  {
  }

  /** Every lookup failure, whatever its kind, ends in a 404. */
  lemma LookupFailureIsNotFound(suffix: Option<string>, repo: Repository)
    requires ParseSuffix(suffix).Parts?
    requires var uuid := ParseSuffix(suffix).uuid;
             !repo.session || uuid !in repo.nodes || !repo.nodes[uuid].NodeAt?
             || repo.nodes[uuid].path !in repo.resources
    ensures Decide(suffix, repo) == NotFound
  {
  }

  // ---------------------------------------------------------------------
  // The Content-Disposition value

  /** The Content-Disposition value that stream builds (section 4.1 of RFC
      6266), without escaping the file name. */
  function Disposition(forceDownload: bool, filename: string): (v: string)
    ensures !forceDownload ==> v == INLINE_DISPOSITION
    ensures forceDownload ==> ATTACHMENT_DISPOSITION <= v
  {
    if forceDownload then
      ATTACHMENT_DISPOSITION + (if IsBlank(filename) then "" else FILENAME_PARAMETER + filename + "\"")
    else INLINE_DISPOSITION
  }

  /** Not part of the servlet: the recipient's side, there only to state
      what DispositionRoundTrip promises. How a recipient reads the file name back from an attachment value whose
      filename parameter is a quoted-string (section 3.2.6 of RFC 7230): the
      text between the quotes, which may hold neither a quote nor a backslash
      (a backslash would start a quoted-pair). */
  function DispositionFilename(value: string): Option<string> {
    var prefix := ATTACHMENT_DISPOSITION + FILENAME_PARAMETER;
    if |value| > |prefix| && value[..|prefix|] == prefix && value[|value| - 1] == '"' then
      var name := value[|prefix|..|value| - 1];
      if '"' in name || '\\' in name then None else Some(name)
    else None
  }

  /** The attachment value carries the suffix's file name so that it reads back
      exactly when the name holds no quote and no backslash: the value is not
      escaped. */
  lemma DispositionRoundTrip(filename: string)
    requires !IsBlank(filename)
    ensures DispositionFilename(Disposition(true, filename)) == Some(filename)
            <==> '"' !in filename && '\\' !in filename
  {
    var prefix := ATTACHMENT_DISPOSITION + FILENAME_PARAMETER;
    var v := Disposition(true, filename);
    assert v == prefix + filename + "\"";
    assert v[..|prefix|] == prefix;
    assert v[|prefix|..|v| - 1] == filename;
  }

  /** Neither an inline value nor an attachment without a name carries a name. */
  lemma DispositionWithoutFilename(forceDownload: bool, filename: string)
    requires !forceDownload || IsBlank(filename)
    ensures DispositionFilename(Disposition(forceDownload, filename)) == None
  {
  }

  // ---------------------------------------------------------------------
  // The response

  /** The bytes IOUtils.copy has written when it fails after `k` bytes, or all
      of them when it does not fail. */
  function Copied(data: seq<byte>, copyFailure: Option<nat>): (r: seq<byte>)
    ensures r <= data
    ensures copyFailure.None? ==> r == data
  {
    match copyFailure
    case None => data
    case Some(k) => if k < |data| then data[..k] else data
  }

  /** The state of the response after a decision, from its state before. */
  function Respond(before: ResponseState, forceDownload: bool, d: Decision, copyFailure: Option<nat>): ResponseState {
    match d
    case NotFound => before.(status := SC_NOT_FOUND, errorSent := true)
    case NotAnAsset => before
    case SizeOverflow(_) => before
    case Serve(original, filename) =>
      before.(
        contentLength := if original.size > 0 then Some(original.size) else before.contentLength,
        contentType := Some(original.mimeType),
        headers := before.headers[CONTENT_DISPOSITION_HEADER := Disposition(forceDownload, filename)],
        body := before.body + Copied(original.data, copyFailure))
  }

  /** What escapes doGet after a decision. */
  function OutcomeOf(d: Decision, copyFailure: Option<nat>): Outcome<Failure> {
    if d.SizeOverflow? then Fail(ArithmeticFailure)
    else if d.Serve? && copyFailure.Some? then Fail(IOFailure)
    else Pass
  }

  /** A rejected request gets a 404 and nothing else: no header, no content
      type or length, no body. */
  lemma NotFoundSetsOnlyStatus(suffix: Option<string>, repo: Repository, forceDownload: bool, copyFailure: Option<nat>)
    requires Decide(suffix, repo) == NotFound
    ensures Respond(FreshResponse, forceDownload, Decide(suffix, repo), copyFailure)
            == FreshResponse.(status := SC_NOT_FOUND, errorSent := true)
    ensures OutcomeOf(Decide(suffix, repo), copyFailure) == Pass
  {
  }

  /** A served response keeps its status, has the rendition's MIME type, a
      content length exactly when the size is positive, the disposition the
      configuration asks for, and the rendition's bytes as its whole body
      when the copy does not fail. */
  lemma ServedResponse(suffix: Option<string>, repo: Repository, forceDownload: bool)
    requires Decide(suffix, repo).Serve?
    ensures var d := Decide(suffix, repo);
            var r := Respond(FreshResponse, forceDownload, d, None);
            && r.status == SC_OK && !r.errorSent
            && r.contentType == Some(d.original.mimeType)
            && (r.contentLength.Some? <==> d.original.size > 0)
            && (r.contentLength.Some? ==> r.contentLength.value == d.original.size)
            && r.body == d.original.data
            && r.headers.Keys == {CONTENT_DISPOSITION_HEADER}
            && (forceDownload ==> ATTACHMENT_DISPOSITION <= r.headers[CONTENT_DISPOSITION_HEADER])
            && (forceDownload && '"' !in d.filename && '\\' !in d.filename ==>
                  DispositionFilename(r.headers[CONTENT_DISPOSITION_HEADER]) == Some(d.filename))
            && (!forceDownload ==> r.headers[CONTENT_DISPOSITION_HEADER] == INLINE_DISPOSITION)
  {
    var d := Decide(suffix, repo);
    if forceDownload && '"' !in d.filename && '\\' !in d.filename {
      DispositionRoundTrip(d.filename);
    }
  }

  // ---------------------------------------------------------------------
  // The requests of CoreFileDownloadServletTest, and the served PDF

  const PDF_NAME := "Download_Test_PDF.pdf"
  const PDF_UUID := "8d7e96d4-501a-4ade-93d5-a5956b13a5df"
  const PDF_ASSET_PATH := "/content/dam/core/documents/Download_Test_PDF.pdf"

  const PdfOriginal := Rendition(PDF_ASSET_PATH + "/jcr:content/renditions/original", "application/pdf", 3, [37, 80, 68])

  const PdfAsset := Asset(PDF_UUID, PDF_NAME, PDF_ASSET_PATH, "application/pdf", Some(PdfOriginal), [PdfOriginal],
                          None, map[], None, 0)

  /** A repository holding the test PDF under its id. */
  const PdfRepository := Repository(
    true,
    map[PDF_UUID := NodeAt(PDF_ASSET_PATH)],
    map[PDF_ASSET_PATH := Resource(PDF_NAME, {ASSET_RESOURCE_TYPE}, Some(PdfAsset))])

  /** An empty or absent suffix is a 404. */
  lemma MissingSuffix(repo: Repository)
    ensures Decide(Some(""), repo) == NotFound
    ensures Decide(None, repo) == NotFound
  {
  }

  /** "/Download_Test_PDF.pdf" splits into two parts: a 404. */
  lemma SuffixWithTooFewParts(repo: Repository)
    ensures Decide(Some("/" + PDF_NAME), repo) == NotFound
  {
    assert '/' !in PDF_NAME;
    SplitJoin(["", PDF_NAME]);
    assert Join(["", PDF_NAME]) == "/" + PDF_NAME;
  }

  /** "//Download_Test_PDF.pdf" has a blank id: a 404. */
  lemma MissingUuid(repo: Repository)
    ensures Decide(Some("//" + PDF_NAME), repo) == NotFound
  {
    assert '/' !in PDF_NAME;
    SplitJoin(["", "", PDF_NAME]);
    JoinThree("", "", PDF_NAME);
    assert "" + "/" + "" + "/" + PDF_NAME == "//" + PDF_NAME;
  }

  /** "/<uuid>/" loses its empty last part in the split and so has two parts:
      a 404. */
  lemma MissingFilename(repo: Repository)
    ensures Decide(Some("/" + PDF_UUID + "/"), repo) == NotFound
  {
    assert '/' !in PDF_UUID;
    SplitJoin(["", PDF_UUID, ""]);
    JoinThree("", PDF_UUID, "");
    assert "" + "/" + PDF_UUID + "/" + "" == "/" + PDF_UUID + "/";
    assert DropTrailingEmpty(["", PDF_UUID, ""]) == ["", PDF_UUID];
  }

  /** A suffix "/<id>/<name>" whose id names a dam:Asset resource of that name
      (up to case) with an original rendition of int size serves it. */
  lemma FoundAssetServed(repo: Repository, uuid: string, filename: string, resource: Resource, original: Rendition)
    requires '/' !in uuid && '/' !in filename && !IsBlank(uuid) && !IsBlank(filename)
    requires FindDownloadableResource(repo, uuid) == Some(resource)
    requires ASSET_RESOURCE_TYPE in resource.resourceTypes && EqualsIgnoreCase(filename, resource.name)
    requires resource.asset.Some? && resource.asset.value.original == Some(original)
    requires InIntRange(original.size)
    ensures Decide(Some("/" + uuid + "/" + filename), repo) == Serve(original, filename)
  {
    ParseJoinedSuffix("", uuid, filename, 0);
    assert "" + "/" + uuid + "/" + filename + Slashes(0) == "" + "/" + uuid + "/" + filename;
    assert "" + "/" + uuid + "/" + filename == "/" + uuid + "/" + filename;
  }

  lemma PdfFound()
    ensures FindDownloadableResource(PdfRepository, PDF_UUID)
            == Some(Resource(PDF_NAME, {ASSET_RESOURCE_TYPE}, Some(PdfAsset)))
  {
  }

  lemma PdfSuffixParts()
    ensures '/' !in PDF_UUID && '/' !in PDF_NAME && !IsBlank(PDF_UUID) && !IsBlank(PDF_NAME)
  {
    assert !IsWhitespace(PDF_UUID[0]) && !IsWhitespace(PDF_NAME[0]);
  }

  /** The id and name of the test PDF select its original rendition. */
  lemma PdfDownload()
    ensures Decide(Some("/" + PDF_UUID + "/" + PDF_NAME), PdfRepository) == Serve(PdfOriginal, PDF_NAME)
  {
    PdfSuffixParts();
    PdfFound();
    assert EqualsIgnoreCase(PDF_NAME, PDF_NAME);
    FoundAssetServed(PdfRepository, PDF_UUID, PDF_NAME, Resource(PDF_NAME, {ASSET_RESOURCE_TYPE}, Some(PdfAsset)), PdfOriginal);
  }

  /** Serving the test PDF with downloads forced streams it as an attachment
      that names the file. */
  lemma PdfResponse()
    ensures var r := Respond(FreshResponse, true, Serve(PdfOriginal, PDF_NAME), None);
            && r.contentType == Some("application/pdf")
            && DispositionFilename(r.headers[CONTENT_DISPOSITION_HEADER]) == Some(PDF_NAME)
            && r.body == PdfOriginal.data
  {
    PdfSuffixParts();
    assert '"' !in PDF_NAME && '\\' !in PDF_NAME;
    DispositionRoundTrip(PDF_NAME);
  }

  /** The same id with another file name is a 404. */
  lemma OtherFilename()
    ensures Decide(Some("/" + PDF_UUID + "/Other.pdf"), PdfRepository) == NotFound
  {
    var name := "Other.pdf";
    PdfSuffixParts();
    assert '/' !in name && !IsWhitespace(name[0]);
    ParseJoinedSuffix("", PDF_UUID, name, 0);
    assert "" + "/" + PDF_UUID + "/" + name + Slashes(0) == "" + "/" + PDF_UUID + "/" + name;
    assert "" + "/" + PDF_UUID + "/" + name == "/" + PDF_UUID + "/Other.pdf";
    PdfFound();
    assert |name| != |PDF_NAME|;
  }

  /** The test PDF's name, spelt with other capitals. */
  const MIXED_CASE_NAME := "download_test_pdf.PDF"

  lemma MixedCaseNameMatches()
    ensures EqualsIgnoreCase(MIXED_CASE_NAME, PDF_NAME)
  {
  }

  lemma MixedCaseNameIsSlashFree()
    ensures '/' !in MIXED_CASE_NAME
  {
  }

  lemma MixedCaseNameIsNotBlank()
    ensures !IsBlank(MIXED_CASE_NAME)
  {
    assert !IsWhitespace(MIXED_CASE_NAME[0]);
  }

  /** The file name is compared up to case, and the response carries the
      spelling of the URL, not the asset's. */
  lemma FilenameCaseIgnored()
    ensures Decide(Some("/" + PDF_UUID + "/" + MIXED_CASE_NAME), PdfRepository)
            == Serve(PdfOriginal, MIXED_CASE_NAME)
  {
    PdfSuffixParts();
    MixedCaseNameMatches();
    MixedCaseNameIsSlashFree();
    MixedCaseNameIsNotBlank();
    PdfFound();
    FoundAssetServed(PdfRepository, PDF_UUID, MIXED_CASE_NAME,
                     Resource(PDF_NAME, {ASSET_RESOURCE_TYPE}, Some(PdfAsset)), PdfOriginal);
  }

  /** IOUtils.copy: writes the source's bytes to the response, or throws an
      IOException after `k` of them when `copyFailure` is `Some(k)`. */
  method Copy(input: ByteSource, response: Response, copyFailure: Option<nat>) returns (outcome: Outcome<Failure>)
    modifies response
    ensures response.State() == old(response.State()).(body := old(response.body) + Copied(input.data, copyFailure))
    ensures outcome == if copyFailure.None? then Pass else Fail(IOFailure)
  {
    response.Write(Copied(input.data, copyFailure));
    outcome := if copyFailure.None? then Pass else Fail(IOFailure);
  }

  class CoreFileDownloadServlet {
    var forceDownload: bool

    constructor ()
      ensures forceDownload == DefaultConfiguration.forceDownload
    {
      forceDownload := false;
    }

    /** activate, also called on every modification of the configuration. */
    method Activate(configuration: Configuration)
      modifies this
      ensures forceDownload == configuration.forceDownload
    {
      forceDownload := configuration.forceDownload;
    }

    /** doGet for a request with the given suffix (None when the request has
      none). `copyFailure` says whether and where copying to the client fails.
      `taken` is the stream taken from the original rendition, if any. */
    method DoGet(suffix: Option<string>, repo: Repository, response: Response, copyFailure: Option<nat>)
      returns (outcome: Outcome<Failure>, taken: Option<ByteSource>)
      modifies response
      ensures var d := Decide(suffix, repo);
              && response.State() == Respond(old(response.State()), forceDownload, d, copyFailure)
              && outcome == OutcomeOf(d, copyFailure)
              && (taken.Some? <==> d.Serve? || d.SizeOverflow?)
              && (taken.Some? ==> fresh(taken.value) && taken.value.data == d.original.data)
              && (d.Serve? ==> taken.value.closed)
              && (d.SizeOverflow? ==> !taken.value.closed)
    {
      taken, outcome := None, Pass;
      if Blank(suffix) {
        response.SendError(SC_NOT_FOUND);
        return;
      }
      var suffixParts := Split(suffix.value);
      if |suffixParts| != 3 {
        response.SendError(SC_NOT_FOUND);
        return;
      }
      var uuid, filename := suffixParts[1], suffixParts[2];
      if IsBlank(uuid) || IsBlank(filename) {
        response.SendError(SC_NOT_FOUND);
        return;
      }
      var downloadResource := FindDownloadableResource(repo, uuid);
      if downloadResource.None? {
        response.SendError(SC_NOT_FOUND);
        return;
      }
      if ASSET_RESOURCE_TYPE in downloadResource.value.resourceTypes {
        if !EqualsIgnoreCase(filename, downloadResource.value.name) {
          response.SendError(SC_NOT_FOUND);
          return;
        }
        outcome, taken := StreamAsset(downloadResource.value, filename, response, copyFailure);
      }
    }

    /** streamAsset. The stream is taken before Math.toIntExact converts the
        size, so an overflow leaves it open. */
    method StreamAsset(downloadResource: Resource, filename: string, response: Response, copyFailure: Option<nat>)
      returns (outcome: Outcome<Failure>, taken: Option<ByteSource>)
      modifies response
      ensures var d := AssetDecision(downloadResource, filename);
              && response.State() == Respond(old(response.State()), forceDownload, d, copyFailure)
              && outcome == OutcomeOf(d, copyFailure)
              && (taken.Some? <==> d.Serve? || d.SizeOverflow?)
              && (taken.Some? ==> fresh(taken.value) && taken.value.data == d.original.data)
              && (d.Serve? ==> taken.value.closed)
              && (d.SizeOverflow? ==> !taken.value.closed)
    {
      taken, outcome := None, Pass;
      if downloadResource.asset.None? {
        response.SendError(SC_NOT_FOUND);
        return;
      }
      var downloadAsset := downloadResource.asset.value;
      if downloadAsset.original.None? {
        response.SendError(SC_NOT_FOUND);
        return;
      }
      var original := downloadAsset.original.value;
      var inputStream := new ByteSource(original.data);
      taken := Some(inputStream);
      var contentType := original.mimeType;
      if !InIntRange(original.size) {
        outcome := Fail(ArithmeticFailure);
        return;
      }
      var size: int32 := original.size;
      outcome := Stream(response, inputStream, contentType, filename, size, copyFailure);
    }

    /** stream: sets the length (when positive), the type and the disposition,
        copies the bytes and closes the input whether or not the copy fails. */
    method Stream(response: Response, inputStream: ByteSource, contentType: string, filename: string, size: int32,
                  copyFailure: Option<nat>)
      returns (outcome: Outcome<Failure>)
      modifies response, inputStream
      ensures inputStream.closed
      ensures response.State() == old(response.State()).(
                contentLength := if size > 0 then Some(size as int) else old(response.contentLength),
                contentType := Some(contentType),
                headers := old(response.headers)[CONTENT_DISPOSITION_HEADER := Disposition(forceDownload, filename)],
                body := old(response.body) + Copied(inputStream.data, copyFailure))
      ensures outcome == if copyFailure.None? then Pass else Fail(IOFailure)
    {
      if size > 0 {
        response.SetContentLength(size);
      }
      response.SetContentType(contentType);
      var disposition := "";
      if forceDownload {
        disposition := disposition + ATTACHMENT_DISPOSITION;
        if !IsBlank(filename) {
          disposition := disposition + FILENAME_PARAMETER + filename + "\"";
        }
      } else {
        disposition := disposition + INLINE_DISPOSITION;
      }
      assert disposition == Disposition(forceDownload, filename);
      response.SetHeader(CONTENT_DISPOSITION_HEADER, disposition);
      outcome := Copy(inputStream, response, copyFailure);
      inputStream.Close();
    }
  }
}
