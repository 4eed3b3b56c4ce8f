/** FileDownloadServlet: the older GET endpoint at the same path. It checks the
    suffix less strictly, looks the id up and sends a 404 when that fails,
    and streams nothing. */
module FileDownload {
  import opened Wrappers
  import opened Text
  import opened PathSplit
  import opened Http
  import opened Dam
  import CoreFileDownload

  const EXTENSION := "file"
  const PATH := "/bin/download"

  /** The suffix checks of doGet: a blank suffix and a split into other than
      three parts are malformed; the id and the file name are not checked. */
  function ParseSuffix(suffix: Option<string>): (r: CoreFileDownload.SuffixParts)
    ensures r.Parts? ==> suffix.Some? && '/' in suffix.value
    ensures r.Parts? ==> '/' !in r.uuid && '/' !in r.filename && r.filename != ""
  {
    if Blank(suffix) then CoreFileDownload.Malformed
    else
      var parts := Split(suffix.value);
      if |parts| != 3 then CoreFileDownload.Malformed
      else CoreFileDownload.Parts(parts[1], parts[2])
  }

  /** Any slash-free leading part, slash-free id and non-empty slash-free file
      name, joined by slashes, give back the id and the file name, even when
      the id is empty or either is blank. */
  lemma ParseJoinedSuffix(lead: string, uuid: string, filename: string)
    requires '/' !in lead && '/' !in uuid && '/' !in filename && filename != ""
    ensures ParseSuffix(Some(lead + "/" + uuid + "/" + filename)) == CoreFileDownload.Parts(uuid, filename)
  {
    var parts := [lead, uuid, filename];
    JoinThree(lead, uuid, filename);
    SplitJoin(parts);
    assert !IsWhitespace(Join(parts)[|lead|]);
  }

  /** The newer servlet accepts exactly the suffixes this one accepts whose id
      and file name are not blank, and then reads the same id and file name. */
  lemma StricterParserAgrees(suffix: Option<string>)
    ensures CoreFileDownload.ParseSuffix(suffix).Parts? <==>
              ParseSuffix(suffix).Parts? && !IsBlank(ParseSuffix(suffix).uuid) && !IsBlank(ParseSuffix(suffix).filename)
    ensures CoreFileDownload.ParseSuffix(suffix).Parts? ==> CoreFileDownload.ParseSuffix(suffix) == ParseSuffix(suffix)
  {
  }

  /** "//<name>" reaches the lookup with an empty id here, where the newer
      servlet rejects it. */
  lemma EmptyIdReachesLookup(name: string)
    requires '/' !in name && !IsBlank(name)
    ensures ParseSuffix(Some("//" + name)) == CoreFileDownload.Parts("", name)
    ensures CoreFileDownload.ParseSuffix(Some("//" + name)) == CoreFileDownload.Malformed
  {
    assert name != [] by {
      if name == [] {
        assert IsBlank(name);
      }
    }
    ParseJoinedSuffix("", "", name);
    assert "" + "/" + "" + "/" + name == "//" + name;
  }

  /** How a request ends: a 404, or the resource found and the response left
      alone. */
  datatype Decision = NotFound | Found(resource: Resource)

  /** The decision doGet takes, as a function of the suffix and the repository. */
  function Decide(suffix: Option<string>, repo: Repository): (d: Decision)
    ensures ParseSuffix(suffix).Malformed? ==> d == NotFound
    ensures d.Found? ==> d.resource in repo.resources.Values
  {
    match ParseSuffix(suffix)
    case Malformed => NotFound
    case Parts(uuid, _) =>
      match FindDownloadableResource(repo, uuid)
      case None => NotFound
      case Some(resource) => Found(resource)
  }

  /** A well-formed suffix finds a resource exactly when the lookup of its id
      succeeds; every lookup failure is a 404. */
  lemma FoundIffLookupSucceeds(suffix: Option<string>, repo: Repository)
    requires ParseSuffix(suffix).Parts?
    ensures var found := FindDownloadableResource(repo, ParseSuffix(suffix).uuid);
            && (Decide(suffix, repo).Found? <==> found.Some?)
            && (found.Some? ==> Decide(suffix, repo) == Found(found.value))
  {
  }

  /** Whatever the newer servlet does not reject with a 404, this one finds
      too: it is the same lookup of the same id. */
  lemma NewerServletLooksUpTheSame(suffix: Option<string>, repo: Repository)
    requires CoreFileDownload.Decide(suffix, repo) != CoreFileDownload.NotFound
    ensures Decide(suffix, repo).Found?
    ensures Decide(suffix, repo).resource == FindDownloadableResource(repo, CoreFileDownload.ParseSuffix(suffix).uuid).value
  {
    StricterParserAgrees(suffix);
  }

  /** doGet for a request with the given suffix: a 404 when the decision is
      NotFound, nothing at all on the response otherwise. */
  method DoGet(suffix: Option<string>, repo: Repository, response: Response)
    modifies response
    ensures Decide(suffix, repo).NotFound? ==>
              response.State() == old(response.State()).(status := SC_NOT_FOUND, errorSent := true)
    ensures Decide(suffix, repo).Found? ==> response.State() == old(response.State())
  {
    if Blank(suffix) {
      response.SendError(SC_NOT_FOUND);
      return;
    }
    var suffixParts := Split(suffix.value);
    if |suffixParts| != 3 {
      response.SendError(SC_NOT_FOUND);
      return;
    }
    var uuid := suffixParts[1];
    var downloadResource := FindDownloadableResource(repo, uuid);
    if downloadResource.None? {
      response.SendError(SC_NOT_FOUND);
      return;
    }
  }
}
